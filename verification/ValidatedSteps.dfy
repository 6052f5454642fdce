/**
 Steps of the trigger loop of validated building: where the data iterator stands, and what the
 specification gives from there on.
 */
module ValidatedSteps {
  import opened Sequences
  import opened OrderedMap
  import opened AsicPacket
  import opened LdaTimestamps
  import opened EventBuilding
  import opened ValidatedBuilding

  lemma SkipGroup(bxids: seq<Item>, it: nat, full: Option<int>, ts: seq<Trig>)
    requires it < |bxids| && Ordered(bxids) && ByBxid(ts) && (ts != [] ==> bxids[it].key < ts[0].bxid)
    ensures Matches(bxids[it + 1..], full, ts) == Matches(bxids[it..], full, ts)
  {
    assert bxids[it..] == [bxids[it]] + bxids[it + 1..];
    assert bxids == bxids[..it] + bxids[it..];
    OrderedParts(bxids[..it], bxids[it..]);
    DropFront([bxids[it]], bxids[it + 1..], full, ts);
  }

  /** The front group of a sorted table: nothing smaller is in it, erasing it leaves the rest. */
  lemma FrontGroup(bxids: seq<Item>, it: nat, b: int)
    requires it <= |bxids| && Ordered(bxids) && (it < |bxids| ==> bxids[it].key >= b)
    ensures Has(bxids[it..], b) <==> it < |bxids| && bxids[it].key == b
    ensures it < |bxids| && bxids[it].key == b ==>
      Get(bxids[it..], b, []) == bxids[it].value && Erase(bxids[it..], b) == bxids[it + 1..]
  {
    var m := bxids[it..];
    assert bxids == bxids[..it] + m;
    OrderedParts(bxids[..it], m);
    if m != [] {
      HasTail(m);
      assert m[1..] == bxids[it + 1..];
      if m[0].key == b {
        EraseMissing(m[1..], b);
      }
    }
  }

  lemma {:induction false} RunLengthIs(ts: seq<Trig>, n: nat)
    requires 1 <= n <= |ts| && forall i :: 0 <= i < n ==> ts[i].bxid == ts[0].bxid
    requires n < |ts| ==> ts[n].bxid != ts[0].bxid
    ensures RunLength(ts) == n
  {
    if n > 1 {
      assert ts[1].bxid == ts[0].bxid;
      RunLengthIs(ts[1..], n - 1);
    }
  }

  /** No data for the next trigger: an empty event. */
  lemma NextEmpty(cfg: BuildConfig, roc: int, bxids: seq<Item>, it: nat, ts: seq<Trig>, i: nat, full: Option<int>, last: int)
    requires it <= |bxids| && i < |ts| && Ordered(bxids) && (it < |bxids| ==> bxids[it].key > ts[i].bxid)
    ensures var v := EventsFor(cfg, roc, Matches(bxids[it..], full, ts[i..]), last);
      var r := EventsFor(cfg, roc, Matches(bxids[it..], full, ts[i + 1..]), last + 1);
      v == r.(events := [EmptyEvent(ts[i].id, roc, ts[i])] + r.events)
  {
    FrontGroup(bxids, it, ts[i].bxid);
    assert ts[i..][1..] == ts[i + 1..];
    var rest := Matches(bxids[it..], full, ts[i + 1..]);
    assert ([Empty(ts[i])] + rest)[1..] == rest;
  }

  /** Incomplete data for the next trigger: nothing. */
  lemma NextSkipped(cfg: BuildConfig, roc: int, bxids: seq<Item>, it: nat, ts: seq<Trig>, i: nat, full: Option<int>, last: int)
    requires it < |bxids| && i < |ts| && Ordered(bxids) && bxids[it].key == ts[i].bxid
    requires !Complete(full, ts[i].bxid)
    ensures EventsFor(cfg, roc, Matches(bxids[it..], full, ts[i..]), last)
         == EventsFor(cfg, roc, Matches(bxids[it + 1..], full, ts[i + 1..]), last)
  {
    FrontGroup(bxids, it, ts[i].bxid);
    assert ts[i..][1..] == ts[i + 1..];
    var rest := Matches(bxids[it + 1..], full, ts[i + 1..]);
    assert ([Skipped(ts[i])] + rest)[1..] == rest;
  }

  /** Complete data for the next `n` triggers: one data event. */
  lemma NextJoined(cfg: BuildConfig, roc: int, bxids: seq<Item>, it: nat, ts: seq<Trig>, i: nat, n: nat,
                          full: Option<int>, last: int)
    requires it < |bxids| && i < |ts| && Ordered(bxids) && bxids[it].key == ts[i].bxid
    requires Complete(full, ts[i].bxid) && n == RunLength(ts[i..])
    ensures var v := EventsFor(cfg, roc, Matches(bxids[it..], full, ts[i..]), last);
      var r := EventsFor(cfg, roc, Matches(bxids[it..], full, ts[i + n..]), last);
      var e := BxidEvent(ts[i].id + cfg.trigidOffset, roc, ts[i].bxid, ts[i..i + n], bxids[it].value);
      v == r.(events := [e] + r.events)
  {
    FrontGroup(bxids, it, ts[i].bxid);
    assert ts[i..][..n] == ts[i..i + n] && ts[i..][n..] == ts[i + n..];
    JoinedFront(cfg, roc, ts[i..i + n], bxids[it].value, Matches(bxids[it..], full, ts[i + n..]), last);
  }

  lemma JoinedFront(cfg: BuildConfig, roc: int, joined: seq<Trig>, blocks: seq<Block>, rest: seq<Fate>, last: int)
    requires joined != []
    ensures var r := EventsFor(cfg, roc, rest, last);
      EventsFor(cfg, roc, [Joined(joined, blocks)] + rest, last)
      == r.(events := [BxidEvent(joined[0].id + cfg.trigidOffset, roc, joined[0].bxid, joined, blocks)] + r.events)
  {
    assert ([Joined(joined, blocks)] + rest)[1..] == rest;
  }

  /** The data iterator moves past a group once its single trigger is joined. */
  lemma AfterJoined(bxids: seq<Item>, it: nat, ts: seq<Trig>, i: nat, full: Option<int>)
    requires it < |bxids| && i < |ts| && Ordered(bxids) && ByBxid(ts) && bxids[it].key == ts[i].bxid
    requires RunLength(ts[i..]) == 1
    ensures Matches(bxids[it + 1..], full, ts[i + 1..]) == Matches(bxids[it..], full, ts[i + 1..])
  {
    assert i + 1 < |ts| ==> ts[i..][1] == ts[i + 1] && ts[i].bxid <= ts[i + 1].bxid;
    SkipGroup(bxids, it, full, ts[i + 1..]);
  }

  /** The empty event leaves the rest to come. */
  lemma EmptyPass(cfg: BuildConfig, roc: int, bxids: seq<Item>, it: nat, ts: seq<Trig>, i: nat,
                  full: Option<int>, last: int, queue: seq<Event>)
    requires it <= |bxids| && i < |ts| && Ordered(bxids) && (it < |bxids| ==> bxids[it].key > ts[i].bxid)
    ensures var v0 := EventsFor(cfg, roc, Matches(bxids[it..], full, ts[i..]), last);
      var v := EventsFor(cfg, roc, Matches(bxids[it..], full, ts[i + 1..]), last + 1);
      (queue + [EmptyEvent(ts[i].id, roc, ts[i])]) + v.events == queue + v0.events && v.last == v0.last
  {
    NextEmpty(cfg, roc, bxids, it, ts, i, full, last);
    Regroup(queue, [EmptyEvent(ts[i].id, roc, ts[i])], EventsFor(cfg, roc, Matches(bxids[it..], full, ts[i + 1..]), last + 1).events);
  }

  /** The data event and the move of the iterator together leave the rest to come. */
  lemma JoinedPass(cfg: BuildConfig, roc: int, bxids: seq<Item>, at: nat, it: nat, ts: seq<Trig>, i: nat, n: nat,
                          full: Option<int>, last: int, queue: seq<Event>)
    requires at < |bxids| && i < |ts| && Ordered(bxids) && ByBxid(ts) && bxids[at].key == ts[i].bxid
    requires Complete(full, ts[i].bxid) && n == RunLength(ts[i..]) && it == if n <= 1 then at + 1 else at
    ensures var v0 := EventsFor(cfg, roc, Matches(bxids[at..], full, ts[i..]), last);
      var v := EventsFor(cfg, roc, Matches(bxids[it..], full, ts[i + n..]), last);
      var e := BxidEvent(ts[i].id + cfg.trigidOffset, roc, ts[i].bxid, ts[i..i + n], bxids[at].value);
      (queue + [e]) + v.events == queue + v0.events && v.last == v0.last
  {
    NextJoined(cfg, roc, bxids, at, ts, i, n, full, last);
    var r := EventsFor(cfg, roc, Matches(bxids[at..], full, ts[i + n..]), last);
    var e := BxidEvent(ts[i].id + cfg.trigidOffset, roc, ts[i].bxid, ts[i..i + n], bxids[at].value);
    Regroup(queue, [e], r.events);
    if n <= 1 {
      AfterJoined(bxids, at, ts, i, full);
    }
  }
}
