/** The two FIFO drivers side by side. */
module PioAgree {
  import opened PioWriters
  import A = PioAt91
  import U = PioUsba

  // Given the same requests in the same order, the two drivers have put the same packets on
  // the wire once neither has a request left, as long as no turn of the second overtakes or
  // overruns; and those are the standard's packets of each request in turn.
  lemma WritersAgree(mp: nat, banks: nat, es: seq<A.Event>, us: seq<U.Event>)
    requires mp > 0
    requires U.NoneGoesWrong(U.Enabled(banks), mp, us)
    ensures
      Clean(NO_WORK, mp) &&
      var (a, os) := A.Run(A.At91(NO_WORK, false, false), mp, es);
      var u := U.Run(U.Enabled(banks), mp, us);
      os == U.Queued(us) && a.work.queue == [] && u.work.queue == [] ==>
        a.work.wire == u.work.wire == Wire(os, mp) && a.work.done == u.work.done == os
  {
    hide Wire;
    NothingOnWire(mp, banks);
    var a0, u0 := A.At91(NO_WORK, false, false), U.Enabled(banks);
    A.RunOnWire(a0, mp, es);
    U.RunOnWire(u0, mp, us);
    U.RunOrder(u0, mp, us);
    var os := A.Run(a0, mp, es).1;
    assert Asked(NO_WORK) == [];
    assert [] + os == os && [] + U.Queued(us) == U.Queued(us);
    Drained(A.Run(a0, mp, es).0.work);
    Drained(U.Run(u0, mp, us).work);
  }

  lemma Drained(w: Work)
    ensures w.queue == [] ==> Asked(w) == w.done
  {
  }

  lemma NothingOnWire(mp: nat, banks: nat)
    requires mp > 0
    ensures Clean(NO_WORK, mp) && U.Fine(U.Enabled(banks), mp)
  {
  }
}
