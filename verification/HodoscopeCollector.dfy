/**
 The hodoscope collector as an object: queues popped in place, proved to do what `HodoscopeJoin` says.
 */
module HodoscopeCollectorObject {
  import opened HodoscopeJoin

  class HodoscopeCollector {
    var ahcalEvts: seq<Ev>

    /** One queue for each hodoscope, in the order of the connections. */
    var hodoscopeEvts: seq<seq<Ev>>
    var debugUnmatched: nat
    var written: seq<Sync>

    ghost function State(): Coll
      reads this
    {
      Coll(ahcalEvts, hodoscopeEvts, written, debugUnmatched)
    }

    /** A collector to which an AHCAL producer and some hodoscopes are connected. */
    constructor (hodoscopes: nat)
      ensures State() == Start(hodoscopes)
    {
      ahcalEvts, debugUnmatched, written := [], 0, [];
      hodoscopeEvts := Nothing(hodoscopes);
    }

    /** The hodoscopes in order: pops events behind the AHCAL event, up to an empty queue. */
    method LookAtHodoscopes(roc: int, bxid: int) returns (look: Look)
      modifies this`hodoscopeEvts
      ensures look == LookAt(old(hodoscopeEvts), Key(roc, bxid)) && hodoscopeEvts == look.hodos
    {
      ghost var hs, k := hodoscopeEvts, Key(roc, bxid);
      ghost var done := [];
      var behind, matchFound := false, false;
      for i := 0 to |hodoscopeEvts|
        invariant |hodoscopeEvts| == |hs| && |done| == i
        invariant hodoscopeEvts == done + hs[i..]
        invariant LookAt(hs, k) == Resume(done, behind, matchFound, LookAt(hs[i..], k))
      {
        LookNext(hs, k, i, done, behind, matchFound);
        assert hodoscopeEvts[i] == hs[i];
        if |hodoscopeEvts[i]| < 1 {
          return Look(hodoscopeEvts, true, behind, matchFound);
        }
        var front := hodoscopeEvts[i][0];
        var que := hodoscopeEvts[i];
        if front.roc < roc {
          que := que[1..];
          behind := true;
        } else if front.roc == roc {
          if front.bxid < bxid {
            que := que[1..];
            behind := true;
          } else if front.bxid == bxid {
            matchFound := true;
          }
        }
        SetAt(done, hs, i, que);
        hodoscopeEvts := hodoscopeEvts[i := que];
        done := done + [que];
      }
      assert hs[|hs|..] == [] && done + [] == done;
      return Look(hodoscopeEvts, false, behind, matchFound);
    }

    /** Takes the matching front events of the hodoscopes. */
    method TakeMatches(roc: int, bxid: int) returns (subs: seq<Ev>)
      modifies this`hodoscopeEvts
      ensures subs == Fronts(old(hodoscopeEvts), Key(roc, bxid))
      ensures hodoscopeEvts == PopFronts(old(hodoscopeEvts), Key(roc, bxid))
    {
      ghost var hs, k := hodoscopeEvts, Key(roc, bxid);
      subs := [];
      ghost var done := [];
      for i := 0 to |hodoscopeEvts|
        invariant |hodoscopeEvts| == |hs| && |done| == i
        invariant hodoscopeEvts == done + hs[i..]
        invariant subs + Fronts(hs[i..], k) == Fronts(hs, k)
        invariant done + PopFronts(hs[i..], k) == PopFronts(hs, k)
      {
        FrontsNext(hs, k, i, done, subs);
        assert hodoscopeEvts[i] == hs[i];
        var que := hodoscopeEvts[i];
        if |que| > 0 && que[0].roc == roc && que[0].bxid == bxid {
          subs := subs + [que[0]];
          que := que[1..];
        }
        SetAt(done, hs, i, que);
        hodoscopeEvts := hodoscopeEvts[i := que];
        done := done + [que];
      }
      assert hs[|hs|..] == [] && done + [] == done && subs + [] == subs;
    }

    /** One pass of the loop. */
    method PassOnce() returns (again: bool)
      modifies this
      ensures again == Pass(old(State())).Again? && State() == Pass(old(State())).c
    {
      if |ahcalEvts| < 1 {
        return false;
      }
      var front := ahcalEvts[0];
      if front.roc == -1 || front.bxid == -1 || front.bxid == 0 {
        ahcalEvts := ahcalEvts[1..];
        return true;
      }
      var look := LookAtHodoscopes(front.roc, front.bxid);
      if look.stop {
        return false;
      }
      if look.behind {
        return true;
      }
      ahcalEvts := ahcalEvts[1..];
      if !look.match_ {
        debugUnmatched := debugUnmatched + 1;
        return true;
      }
      var subs := TakeMatches(front.roc, front.bxid);
      written := written + [Sync(front, subs)];
      return true;
    }

    method BuildEvent()
      modifies this
      ensures State() == Build(old(State()))
    {
      var again := true;
      while again
        invariant (if again then Build(State()) else State()) == Build(old(State()))
        decreases again, Size(State())
      {
        PassPops(State());
        again := PassOnce();
      }
    }

    /** `DoReceive`; false for an unknown producer, which is an exception in the source. */
    method DoReceive(a: Arrival) returns (ok: bool)
      modifies this
      ensures ok == Known(old(State()), a.source)
      ensures State() == Receive(old(State()), a)
    {
      match a.source {
        case Ahcal => ahcalEvts := ahcalEvts + [a.e];
        case Hodoscope(i) =>
          if i >= |hodoscopeEvts| {
            return false;
          }
          hodoscopeEvts := hodoscopeEvts[i := hodoscopeEvts[i] + [a.e]];
      }
      ok := true;
      if |hodoscopeEvts| < 2 {
        return;
      }
      BuildEvent();
    }
  }

  /** What was found in the first queues, followed by what is found in the others. */
  ghost function Resume(done: seq<seq<Ev>>, behind: bool, match_: bool, r: Look): Look {
    Look(done + r.hodos, r.stop, behind || r.behind, match_ || r.match_)
  }

  lemma LookNext(hs: seq<seq<Ev>>, k: Key, i: nat, done: seq<seq<Ev>>, behind: bool, match_: bool)
    requires i < |hs|
    ensures hs[i] == [] ==> Resume(done, behind, match_, LookAt(hs[i..], k)) == Look(done + hs[i..], true, behind, match_)
    ensures hs[i] != [] ==>
              Resume(done, behind, match_, LookAt(hs[i..], k))
              == Resume(done + [if IsBehind(hs[i], k) then hs[i][1..] else hs[i]], behind || IsBehind(hs[i], k),
                        match_ || IsAt(hs[i], k), LookAt(hs[i + 1..], k))
  {
    assert hs[i..][1..] == hs[i + 1..];
  }

  lemma SetAt(done: seq<seq<Ev>>, hs: seq<seq<Ev>>, i: nat, que: seq<Ev>)
    requires |done| == i < |hs|
    ensures (done + hs[i..])[i := que] == (done + [que]) + hs[i + 1..]
  {
  }

  lemma FrontsNext(hs: seq<seq<Ev>>, k: Key, i: nat, done: seq<seq<Ev>>, subs: seq<Ev>)
    requires i < |hs|
    ensures subs + Fronts(hs[i..], k) == (if IsAt(hs[i], k) then subs + [hs[i][0]] else subs) + Fronts(hs[i + 1..], k)
    ensures done + PopFronts(hs[i..], k) == (done + [if IsAt(hs[i], k) then hs[i][1..] else hs[i]]) + PopFronts(hs[i + 1..], k)
  {
    assert hs[i..][1..] == hs[i + 1..];
  }
}
