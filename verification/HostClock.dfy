/** The clocks a node program reads: nothing is known of them but that monotonic time never runs backwards. */
module HostClock {

  class Host {
    var mono: int

    constructor (start: int)
      ensures mono == start
    {
      mono := start;
    }

    method Monotonic() returns (t: int)
      modifies this
      ensures t == mono && old(mono) <= mono
    {
      t :| mono <= t;
      mono := t;
    }

    /** The wall clock may show anything. */
    method Wall() returns (t: int) {
      t := *;
    }

    /** A sleep that never wakes early. */
    method Sleep(ns: int)
      modifies this
      ensures old(mono) <= mono && old(mono) + ns <= mono
    {
      var t :| mono <= t && mono + ns <= t;
      mono := t;
    }
  }
}
