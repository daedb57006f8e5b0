/**
 Bounded local values for a component about to be attached
 (apps/kagami/src/component_form/properties.rs).
 */
module AttachmentProperties {
  import opened Aggregates

  const MAX_FIELDS := 256
  const MAX_BYTES := 1024 * 1024

  type Source = seq<bv8>
  type Name = nat

  /** A property's kind, with the default its plugin declared, if any. */
  datatype Declared = QuantityOf(expression: Option<Source>) | TextOf(text: Option<Source>) | FlagOf(flag: Option<bool>)

  type Schema = map<Name, Declared>

  datatype Value = Quantity(expression: Source) | Text(text: Source) | Boolean(flag: bool)

  datatype Input = Give(value: Value) | Unset

  datatype Budget = Budget(expressionBytes: nat, textBytes: nat, properties: nat)

  type Values = map<Name, Value>

  function Size(v: Value): nat {
    match v
    case Quantity(e) => |e|
    case Text(t) => |t|
    case Boolean(_) => 0
  }

  function DefaultOf(d: Declared): Option<Value> {
    match d
    case QuantityOf(Some(e)) => Some(Quantity(e))
    case TextOf(Some(t)) => Some(Text(t))
    case FlagOf(Some(b)) => Some(Boolean(b))
    case _ => None
  }

  function Defaults(schema: Schema): Values {
    map n | n in schema && DefaultOf(schema[n]).Some? :: DefaultOf(schema[n]).value
  }

  /** A value of the declared kind within its source budget. */
  predicate Suits(d: Declared, v: Value, limits: Budget) {
    match v
    case Quantity(e) => d.QuantityOf? && |e| <= limits.expressionBytes
    case Text(t) => d.TextOf? && |t| <= limits.textBytes
    case Boolean(_) => d.FlagOf?
  }

  predicate AllSuit(schema: Schema, values: Values, limits: Budget) {
    forall n :: n in values ==> n in schema && Suits(schema[n], values[n], limits)
  }

  /** The bytes of every retained source. */
  ghost function Total(values: Values): nat {
    if values == map[] then 0 else
      var n :| n in values;
      Size(values[n]) + Total(values - {n})
  }

  /** The total does not depend on the order of summing. */
  lemma {:induction false} TotalWithout(values: Values, n: Name)
    requires n in values
    ensures Total(values) == Size(values[n]) + Total(values - {n})
    decreases |values|
  {
    var first :| first in values && Total(values) == Size(values[first]) + Total(values - {first});
    if first == n {
    } else {
      Smaller(values, first);
      Smaller(values, n);
      TotalWithout(values - {first}, n);
      TotalWithout(values - {n}, first);
      assert values - {first} - {n} == values - {n} - {first};
    }
  }

  lemma Smaller(values: Values, n: Name)
    requires n in values
    ensures |values - {n}| == |values| - 1
  {
  }

  lemma TotalUpdated(values: Values, n: Name, v: Value)
    ensures Total(values[n := v]) == Total(values - {n}) + Size(v)
    ensures |values[n := v]| == |values| + (if n in values then 0 else 1)
  {
    TotalWithout(values[n := v], n);
    CountUpdated(values, n, v);
    hide Total, Size;
    assert values[n := v] - {n} == values - {n};
  }

  lemma CountUpdated(values: Values, n: Name, v: Value)
    ensures |values[n := v]| == |values| + (if n in values then 0 else 1)
  {
    assert values[n := v].Keys == values.Keys + {n};
    assert |values[n := v]| == |values[n := v].Keys| && |values| == |values.Keys|;
  }

  /** What the total adds up: the source bytes of quantities and texts, and nothing for a flag. */
  lemma TotalIs(values: Values, n: Name, source: Source, flag: bool)
    requires n !in values
    ensures Total(map[]) == 0
    ensures Total(values[n := Quantity(source)]) == Total(values) + |source|
    ensures Total(values[n := Text(source)]) == Total(values) + |source|
    ensures Total(values[n := Boolean(flag)]) == Total(values)
  {
    TotalUpdated(values, n, Quantity(source));
    TotalUpdated(values, n, Text(source));
    TotalUpdated(values, n, Boolean(flag));
    assert values - {n} == values;
  }

  /** The value a declaration asks for, whatever the budgets. */
  ghost predicate Declares(d: Declared, v: Value) {
    (exists e :: d == QuantityOf(Some(e)) && v == Quantity(e))
    || (exists t :: d == TextOf(Some(t)) && v == Text(t))
    || (exists b :: d == FlagOf(Some(b)) && v == Boolean(b))
  }

  /** The defaults are what the declarations say, field by field. */
  lemma DefaultsAre(schema: Schema, n: Name, v: Value)
    ensures (n, v) in Defaults(schema).Items <==> n in schema && Declares(schema[n], v)
  {
  }

  /** A declaration that can be staged: few enough fields and defaults, short enough sources, and a bounded total. */
  lemma LoadsIff(schema: Schema, limits: Budget)
    ensures Loads(schema, limits) <==>
            && |schema| <= 256 && |Defaults(schema)| <= limits.properties && Total(Defaults(schema)) <= 1_048_576
            && (forall n, e :: n in schema && schema[n] == QuantityOf(Some(e)) ==> |e| <= limits.expressionBytes)
            && (forall n, t :: n in schema && schema[n] == TextOf(Some(t)) ==> |t| <= limits.textBytes)
  {
    forall n | n in schema
      ensures n in Defaults(schema) ==>
                (Suits(schema[n], Defaults(schema)[n], limits) <==> Brief(schema[n], limits))
      ensures n !in Defaults(schema) ==> Brief(schema[n], limits)
    {
    }
    hide Total, Suits;
  }

  ghost predicate Brief(d: Declared, limits: Budget) {
    && (forall e :: d == QuantityOf(Some(e)) ==> |e| <= limits.expressionBytes)
    && (forall t :: d == TextOf(Some(t)) ==> |t| <= limits.textBytes)
  }

  /** A part never weighs more than the whole, so an overflow on the way is an overflow at the end. */
  lemma {:induction false} TotalOfPart(part: Values, values: Values)
    requires forall n :: n in part ==> n in values && values[n] == part[n]
    ensures Total(part) <= Total(values) && |part| <= |values|
    decreases |values|
  {
    if part != map[] {
      var n :| n in part;
      TotalWithout(part, n);
      TotalWithout(values, n);
      Smaller(part, n);
      Smaller(values, n);
      TotalOfPart(part - {n}, values - {n});
    } else if values != map[] {
      assert |part| == 0;
    }
  }

  class Properties {
    const id: nat
    const schema: Schema
    var values: Values
    var bytes: nat

    ghost predicate Valid(limits: Budget)
      reads this
    {
      bytes == Total(values) && bytes <= MAX_BYTES && |values| <= limits.properties && AllSuit(schema, values, limits)
    }

    constructor (id: nat, schema: Schema, values: Values, bytes: nat)
      ensures this.id == id && this.schema == schema && this.values == values && this.bytes == bytes
    {
      this.id, this.schema, this.values, this.bytes := id, schema, values, bytes;
    }

    /** A replacement value, or removal; refused without any change when the kind, a source or a budget forbids it. */
    method Set(name: Name, input: Input, limits: Budget) returns (ok: bool)
      requires Valid(limits)
      modifies this
      ensures Valid(limits)
      ensures ok <==> old(Accepts(name, input, limits))
      ensures input.Unset? ==> (ok <==> name in schema)
      ensures input.Give? ==>
        (ok <==>
           && name in schema
           && (input.value.Quantity? ==>
                 schema[name].QuantityOf? && |input.value.expression| <= limits.expressionBytes)
           && (input.value.Text? ==> schema[name].TextOf? && |input.value.text| <= limits.textBytes)
           && (input.value.Boolean? ==> schema[name].FlagOf?)
           && (name !in old(values) ==> |old(values)| < limits.properties)
           && Total(old(values)[name := input.value]) <= 1_048_576)
      ensures bytes == Total(values)
      ensures values == if !ok then old(values) else if input.Unset? then old(values) - {name}
        else old(values)[name := input.value]
    {
      if name !in schema { return false; }
      if input.Give? && !Suits(schema[name], input.value, limits) { return false; }
      var existing := if name in values then Some(values[name]) else None;
      if existing.None? && input.Give? && |values| >= limits.properties { return false; }
      SizesAdd(name, input);
      var removed := if existing.Some? then Size(existing.value) else 0;
      var freed := if removed > bytes then 0 else bytes - removed;
      var total := freed + (if input.Give? then Size(input.value) else 0);
      if total > MAX_BYTES { return false; }
      values := if input.Give? then values[name := input.value] else values - {name};
      bytes := total;
      ok := true;
    }

    ghost predicate Accepts(name: Name, input: Input, limits: Budget)
      reads this
    {
      && name in schema
      && (input.Give? ==>
            && Suits(schema[name], input.value, limits) && Total(values[name := input.value]) <= MAX_BYTES
            && |values[name := input.value]| <= limits.properties)
    }

    lemma SizesAdd(name: Name, input: Input)
      ensures name in values ==>
        Total(values) == Size(values[name]) + Total(values - {name})
        && |values - {name}| == |values| - 1
      ensures name !in values ==> values - {name} == values
      ensures input.Give? ==> Total(values[name := input.value]) == Total(values - {name}) + Size(input.value)
      ensures input.Give? ==> |values[name := input.value]| == |values| + (if name in values then 0 else 1)
    {
      if name in values {
        TotalWithout(values, name);
        Smaller(values, name);
      }
      if input.Give? { TotalUpdated(values, name, input.value); }
    }
  }

  /** These values have been counted, weighed and checked against their declarations. */
  ghost predicate Weighs(schema: Schema, part: Values, count: nat, bytes: nat, limits: Budget) {
    count == |part| && bytes == Total(part) && AllSuit(schema, part, limits)
  }

  /** Every default outside `rest` has been counted and weighed. */
  ghost predicate Weighed(schema: Schema, rest: set<Name>, count: nat, bytes: nat, limits: Budget) {
    rest <= schema.Keys && Weighs(schema, Defaults(schema) - rest, count, bytes, limits)
  }

  lemma WeighAnother(schema: Schema, part: Values, n: Name, v: Value, count: nat, bytes: nat, limits: Budget)
    requires Weighs(schema, part, count, bytes, limits) && n !in part && n in schema && Suits(schema[n], v, limits)
    ensures Weighs(schema, part[n := v], count + 1, bytes + Size(v), limits)
  {
    TotalUpdated(part, n, v);
    assert part - {n} == part;
    hide Total, Size, Suits;
  }

  lemma WeighDefault(schema: Schema, rest: set<Name>, n: Name, count: nat, bytes: nat, limits: Budget)
    requires Weighed(schema, rest, count, bytes, limits) && n in rest
    requires DefaultOf(schema[n]).Some? && Suits(schema[n], DefaultOf(schema[n]).value, limits)
    ensures Weighed(schema, rest - {n}, count + 1, bytes + Size(DefaultOf(schema[n]).value), limits)
  {
    OneMoreDefault(schema, rest, n);
    hide Weighs, Defaults, DefaultOf, Suits, Size;
    WeighAnother(schema, Defaults(schema) - rest, n, DefaultOf(schema[n]).value, count, bytes, limits);
  }

  lemma WeighNoDefault(schema: Schema, rest: set<Name>, n: Name, count: nat, bytes: nat, limits: Budget)
    requires Weighed(schema, rest, count, bytes, limits) && n in rest && DefaultOf(schema[n]).None?
    ensures Weighed(schema, rest - {n}, count, bytes, limits)
  {
    OneMoreDefault(schema, rest, n);
    hide Weighs, Defaults, DefaultOf;
  }

  lemma UnsuitableDefault(schema: Schema, n: Name, limits: Budget)
    requires n in schema && DefaultOf(schema[n]).Some? && !Suits(schema[n], DefaultOf(schema[n]).value, limits)
    ensures !AllSuit(schema, Defaults(schema), limits)
  {
    assert n in Defaults(schema) && Defaults(schema)[n] == DefaultOf(schema[n]).value;
    hide Suits, DefaultOf;
  }

  lemma OneMoreDefault(schema: Schema, rest: set<Name>, n: Name)
    requires rest <= schema.Keys && n in rest
    ensures n !in Defaults(schema) - rest
    ensures DefaultOf(schema[n]).None? ==> Defaults(schema) - (rest - {n}) == Defaults(schema) - rest
    ensures DefaultOf(schema[n]).Some? ==> n in Defaults(schema) && Defaults(schema)[n] == DefaultOf(schema[n]).value
    ensures DefaultOf(schema[n]).Some? ==>
      Defaults(schema) - (rest - {n}) == (Defaults(schema) - rest)[n := DefaultOf(schema[n]).value]
  {
  }

  lemma NothingWeighed(schema: Schema, limits: Budget)
    ensures Weighed(schema, schema.Keys, 0, 0, limits)
  {
  }

  lemma WeighedBelow(schema: Schema, rest: set<Name>, count: nat, bytes: nat, limits: Budget)
    requires Weighed(schema, rest, count, bytes, limits)
    ensures bytes <= Total(Defaults(schema))
    ensures rest == {} ==>
      count == |Defaults(schema)| && bytes == Total(Defaults(schema))
      && AllSuit(schema, Defaults(schema), limits)
  {
    TotalOfPart(Defaults(schema) - rest, Defaults(schema));
    if rest == {} { assert Defaults(schema) - rest == Defaults(schema); }
    hide Total, Size, Suits;
  }

  /** A declaration whose defaults can be staged within every budget. */
  ghost predicate Loads(schema: Schema, limits: Budget) {
    && |schema| <= MAX_FIELDS && AllSuit(schema, Defaults(schema), limits)
    && Total(Defaults(schema)) <= MAX_BYTES && |Defaults(schema)| <= limits.properties
  }

  /** The declared defaults, bounded before anything is copied. */
  method Load(schema: Schema, limits: Budget, id: nat) returns (p: Properties?)
    ensures p != null <==> Loads(schema, limits)
    ensures p != null ==>
      fresh(p) && p.Valid(limits) && p.values == Defaults(schema) && p.schema == schema
      && p.id == id
  {
    if |schema| > MAX_FIELDS { return null; }
    hide Defaults, AllSuit, Suits, Total, DefaultOf, Size, Weighed;
    var count: nat, bytes: nat, rest := 0, 0, schema.Keys;
    NothingWeighed(schema, limits);
    while rest != {}
      invariant Weighed(schema, rest, count, bytes, limits) && bytes <= MAX_BYTES
      decreases rest
    {
      var n :| n in rest;
      var found := DefaultOf(schema[n]);
      ghost var before := rest;
      rest := rest - {n};
      if found.None? {
        WeighNoDefault(schema, before, n, count, bytes, limits);
      } else {
        if !Suits(schema[n], found.value, limits) {
          UnsuitableDefault(schema, n, limits);
          return null;
        }
        WeighDefault(schema, before, n, count, bytes, limits);
        count, bytes := count + 1, bytes + Size(found.value);
        WeighedBelow(schema, rest, count, bytes, limits);
        if bytes > MAX_BYTES { return null; }
      }
    }
    WeighedBelow(schema, rest, count, bytes, limits);
    if count > limits.properties { return null; }
    p := new Properties(id, schema, Defaults(schema), bytes);
  }
}
