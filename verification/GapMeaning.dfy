/**
 The gap filling of the ROC and TRIGGERID modes for any numbers, rising or not: which dummies there are,
 and where the numbering stands afterwards.
 */
module GapMeaning {
  import opened EventBuilding

  /** The number stands in front of the `j`-th real one and behind everything handed out before: every
      event, real or dummy, moves the numbering on by at least one. */
  predicate FreeBefore(last: int, ids: seq<int>, j: nat, k: int)
    requires j < |ids|
  {
    k < ids[j] && last + j < k && forall i :: 0 <= i < j ==> ids[i] + (j - 1 - i) < k
  }

  ghost predicate Missed(last: int, ids: seq<int>, k: int) {
    exists j: nat :: j < |ids| && FreeBefore(last, ids, j, k)
  }

  lemma FreeTail(last: int, ids: seq<int>, j: nat, k: int)
    requires 0 < j < |ids|
    ensures FreeBefore(last, ids, j, k) <==> FreeBefore(if last + 1 < ids[0] then ids[0] else last + 1, ids[1..], j - 1, k)
  {
    var rest := ids[1..];
    if FreeBefore(if last + 1 < ids[0] then ids[0] else last + 1, rest, j - 1, k) {
      forall i | 0 <= i < j ensures ids[i] + (j - 1 - i) < k {
        if i > 0 {
          assert rest[i - 1] == ids[i];
        }
      }
    }
  }

  lemma MissedTail(last: int, ids: seq<int>, k: int)
    requires ids != []
    ensures Missed(last, ids, k)
       <==> last < k < ids[0] || Missed(if last + 1 < ids[0] then ids[0] else last + 1, ids[1..], k)
  {
    var next, rest := if last + 1 < ids[0] then ids[0] else last + 1, ids[1..];
    if last < k < ids[0] {
      assert FreeBefore(last, ids, 0, k);
    }
    if Missed(next, rest, k) {
      var j: nat :| j < |rest| && FreeBefore(next, rest, j, k);
      FreeTail(last, ids, j + 1, k);
    }
    if Missed(last, ids, k) && !(last < k < ids[0]) {
      var j: nat :| j < |ids| && FreeBefore(last, ids, j, k);
      FreeTail(last, ids, j, k);
    }
  }

  /** The dummies are exactly the numbers that stand so in front of a real one. */
  lemma {:induction false} DummiesExactly(last: int, ids: seq<int>, k: int)
    ensures Numbered(k, false) in FillAll(last, ids) <==> Missed(last, ids, k)
    decreases |ids|
  {
    if ids != [] {
      GapShape(last + 1, ids[0]);
      if last < k < ids[0] {
        assert Gap(last + 1, ids[0])[k - last - 1] == Numbered(k, false);
      }
      MissedTail(last, ids, k);
      DummiesExactly(Advance(last, ids[0]), ids[1..], k);
    }
  }

  /** The numbering has moved on by one for each event, and at least to each real number and on from
      there; no further. */
  ghost predicate StandsAt(last: int, ids: seq<int>, x: int) {
    && x >= last + |ids|
    && (forall j :: 0 <= j < |ids| ==> x >= ids[j] + (|ids| - 1 - j))
    && (x == last + |ids| || exists j :: 0 <= j < |ids| && x == ids[j] + (|ids| - 1 - j))
  }

  lemma {:induction false} LastStands(last: int, ids: seq<int>)
    ensures StandsAt(last, ids, AdvanceAll(last, ids))
    decreases |ids|
  {
    if ids != [] {
      var next, rest := if last + 1 < ids[0] then ids[0] else last + 1, ids[1..];
      var x := AdvanceAll(last, ids);
      LastStands(next, rest);
      forall j | 0 <= j < |ids| ensures x >= ids[j] + (|ids| - 1 - j) {
        if j > 0 {
          assert rest[j - 1] == ids[j];
        }
      }
      if x != next + |rest| {
        var j :| 0 <= j < |rest| && x == rest[j] + (|rest| - 1 - j);
        assert x == ids[j + 1] + (|ids| - 1 - (j + 1));
      }
    }
  }
}
