/**
 A bounded in-memory tail of process output (Tail in scripts/formation_evidence.py), before decoding.
 */
module Tail {
  import opened Aggregates

  const LOG_LIMIT := 65536

  type Byte = bv8

  const NEWLINE: Byte := 10
  const OMITTED := "[overlong log line omitted]\n"

  /** Trimming after each chunk is trimming once: the buffer never depends on how the stream was cut up. */
  lemma LastOfLast(stream: seq<Byte>, chunk: seq<Byte>, n: nat)
    ensures Last(Last(stream, n) + chunk, n) == Last(stream + chunk, n)
    ensures |Last(stream, n) + chunk| > n ==> |stream + chunk| > n
    ensures |Last(stream, n) + chunk| <= n ==> Last(stream, n) == stream || chunk == []
  {
    if |stream| > n {
      assert stream + chunk == stream[..|stream| - n] + (Last(stream, n) + chunk);
    }
  }

  /** One chunk more, and the buffer cut back to its limit. */
  lemma Trimmed(stream: seq<Byte>, chunk: seq<Byte>)
    ensures var data := Last(stream, LOG_LIMIT) + chunk;
            && Last(stream + chunk, LOG_LIMIT) == (if |data| > LOG_LIMIT then data[|data| - LOG_LIMIT..] else data)
            && (|data| > LOG_LIMIT ==> |stream + chunk| > LOG_LIMIT)
            && (|data| <= LOG_LIMIT ==> Last(stream, LOG_LIMIT) == stream || chunk == [])
  {
    LastOfLast(stream, chunk, LOG_LIMIT);
  }

  lemma LastSize(stream: seq<Byte>)
    ensures var data := Last(stream, LOG_LIMIT);
            && |data| <= |stream| && data == stream[|stream| - |data|..]
            && |data| == if |stream| < 65536 then |stream| else 65536
  {
  }

  datatype Excerpt = Text(bytes: seq<Byte>) | Omitted(notice: string)

  /** A text that starts the stream or directly follows one of its newlines, and runs to its end. */
  ghost predicate WholeLines(text: seq<Byte>, stream: seq<Byte>) {
    |text| <= |stream| && text == stream[|stream| - |text|..]
      && (|text| == |stream| || stream[|stream| - |text| - 1] == NEWLINE)
  }

  class Tail {
    var data: seq<Byte>
    var truncated: bool
    /** What was appended, one stream for each stretch between clears. */
    ghost var streams: seq<seq<Byte>>

    ghost predicate Valid()
      reads this
    {
      streams != [] && data == Last(Present(), LOG_LIMIT) && (truncated <==> Overflowed(streams))
    }

    ghost function Present(): seq<Byte>
      requires streams != []
      reads this
    {
      streams[|streams| - 1]
    }

    constructor ()
      ensures Valid() && streams == [[]] && !truncated
    {
      data, truncated, streams := [], false, [[]];
    }

    method Append(chunk: seq<Byte>)
      requires Valid()
      modifies this
      ensures Valid() && streams == old(streams)[|old(streams)| - 1 := old(Present()) + chunk]
      ensures |data| <= |Present()| && data == Present()[|Present()| - |data|..]
      ensures |data| == if |Present()| < 65536 then |Present()| else 65536
      ensures truncated <==> old(truncated) || |Present()| > 65536
    {
      ghost var whole := Present() + chunk;
      Trimmed(Present(), chunk);
      OverflowGrows(streams, chunk);
      LastSize(whole);
      hide Overflowed, Last;
      data := data + chunk;
      assert |data| > LOG_LIMIT ==> |whole| > LOG_LIMIT;
      if |data| > LOG_LIMIT {
        data := data[|data| - LOG_LIMIT..];
        truncated := true;
      }
      assert data == Last(whole, LOG_LIMIT);
      streams := streams[|streams| - 1 := whole];
      assert Present() == whole;
    }

    /** Forgets the bytes, but not that something was cut: the next excerpt still drops its first line. */
    method Clear()
      requires Valid()
      modifies this
      ensures Valid() && streams == old(streams) + [[]] && data == [] && truncated == old(truncated)
    {
      assert forall i :: 0 <= i < |streams| ==> (streams + [[]])[i] == streams[i];
      data := [];
      streams := streams + [[]];
    }

    /** Everything, or from just after the first newline still held, or the notice when no newline is. */
    method Snapshot() returns (excerpt: Excerpt)
      requires Valid()
      ensures !truncated ==> excerpt == Text(Present())
      ensures excerpt.Text? ==> WholeLines(excerpt.bytes, Present())
      ensures excerpt.Text? && truncated ==>
        |excerpt.bytes| < |data| && NEWLINE !in data[..|data| - |excerpt.bytes| - 1]
      ensures excerpt.Omitted? <==> truncated && NEWLINE !in data
      ensures excerpt.Omitted? <==>
        truncated && forall i :: 0 <= i < |Present()| && |Present()| - i <= 65536 ==> Present()[i] != 10
      ensures excerpt.Text? && truncated ==>
        |excerpt.bytes| < |Present()| && Present()[|Present()| - |excerpt.bytes| - 1] == 10
      ensures excerpt.Omitted? ==> excerpt.notice == "[overlong log line omitted]\n"
      ensures excerpt.Omitted? ==> excerpt.notice == OMITTED
      ensures |Present()| <= LOG_LIMIT ==> (excerpt == Text(Present()) <==> !Overflowed(streams))
    {
      if !truncated {
        NothingCut(streams);
        return Text(data);
      }
      var k := 0;
      while k < |data| && data[k] != NEWLINE
        invariant 0 <= k <= |data| && NEWLINE !in data[..k]
      {
        k := k + 1;
      }
      if k == |data| {
        assert data[..k] == data;
        return Omitted(OMITTED);
      }
      assert data[k] in data;
      LinesOf(Present(), data, k);
      excerpt := Text(data[k + 1..]);
      assert |data| - |excerpt.bytes| - 1 == k;
    }
  }

  ghost predicate Overflowed(streams: seq<seq<Byte>>) {
    exists i :: 0 <= i < |streams| && |streams[i]| > LOG_LIMIT
  }

  lemma OverflowGrows(streams: seq<seq<Byte>>, chunk: seq<Byte>)
    requires streams != []
    ensures var last := streams[|streams| - 1];
            Overflowed(streams[|streams| - 1 := last + chunk]) <==> Overflowed(streams) || |last + chunk| > LOG_LIMIT
    ensures |streams[|streams| - 1]| > LOG_LIMIT ==> Overflowed(streams)
  {
    var last := streams[|streams| - 1];
    var grown := streams[|streams| - 1 := last + chunk];
    if i :| 0 <= i < |streams| && |streams[i]| > LOG_LIMIT { assert |grown[i]| > LOG_LIMIT; }
    if |last + chunk| > LOG_LIMIT { assert |grown[|streams| - 1]| > LOG_LIMIT; }
    if i :| 0 <= i < |grown| && |grown[i]| > LOG_LIMIT { assert i < |streams| - 1 ==> streams[i] == grown[i]; }
  }

  lemma NothingCut(streams: seq<seq<Byte>>)
    requires streams != [] && !Overflowed(streams)
    ensures |streams[|streams| - 1]| <= LOG_LIMIT
  {
  }

  lemma LinesOf(stream: seq<Byte>, data: seq<Byte>, k: nat)
    requires data == Last(stream, LOG_LIMIT) && k < |data| && data[k] == NEWLINE
    ensures WholeLines(data[k + 1..], stream)
  {
  }

  /**
   The mark outlives the bytes: after an overflow and a clear, a line that was never cut is missing from the excerpt.
   */
  method LosesAnUncutLine() returns (tail: Tail, excerpt: Excerpt)
    ensures fresh(tail) && tail.Valid() && tail.Present() == [97, NEWLINE] && excerpt == Text([])
  {
    tail := new Tail();
    var flood := seq(LOG_LIMIT + 1, i => 97 as Byte);
    tail.Append(flood);
    assert |tail.streams[0]| > LOG_LIMIT;
    tail.Clear();
    tail.Append([97, NEWLINE]);
    assert |tail.streams[0]| > LOG_LIMIT;
    excerpt := tail.Snapshot();
    assert tail.data == [97, NEWLINE] && tail.data[1] in tail.data;
  }
}
