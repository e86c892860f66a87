/**
 * Facts about the roommate table and the store's updates to it: how many
 * rows of an avatar or a lot each update leaves, and which rows it deletes.
 */
module TableFacts {
  import opened Types
  import opened Queries

  /**
   * Where avatar `a` holds at most one row, DeclineRoommateRequest on a
   * pending row of `a` deletes exactly that row.
   */
  lemma {:induction false} DeclineDeletesOne(rs: seq<Roommate>, a: AvatarId, l: LotId) returns (i: nat)
    requires |RecordsOf(rs, a)| <= 1 && Roommate(a, l, true) in rs
    ensures i < |rs| && rs[i] == Roommate(a, l, true)
    ensures DeclinePending(rs, a, l) == rs[..i] + rs[i + 1..]
    decreases |rs|
  {
    var p := Roommate(a, l, true);
    if rs[0] == p {
      assert RecordsOf(rs, a) == [rs[0]] + RecordsOf(rs[1..], a);
      assert p !in rs[1..];
      assert DeclinePending(rs, a, l) == DeclinePending(rs[1..], a, l) == rs[1..];
      i := 0;
    } else {
      assert p in rs[1..];
      assert |RecordsOf(rs[1..], a)| <= |RecordsOf(rs, a)|;
      var j := DeclineDeletesOne(rs[1..], a, l);
      DeclineKeepsHead(rs, a, l, j);
      i := j + 1;
    }
  }

  /** A head row that is not the declined one stays in front of the cut. */
  lemma DeclineKeepsHead(rs: seq<Roommate>, a: AvatarId, l: LotId, j: nat)
    requires rs != [] && rs[0] != Roommate(a, l, true)
    requires j < |rs| - 1 && DeclinePending(rs[1..], a, l) == rs[1..][..j] + rs[1..][j + 1..]
    ensures DeclinePending(rs, a, l) == rs[..j + 1] + rs[j + 2..]
  {
    assert DeclinePending(rs, a, l) == [rs[0]] + DeclinePending(rs[1..], a, l);
    ConsCut(rs, j);
  }

  /** Cutting index j out of the tail is cutting index j + 1 out of the whole. */
  lemma ConsCut<T>(s: seq<T>, j: nat)
    requires j < |s| - 1
    ensures [s[0]] + (s[1..][..j] + s[1..][j + 1..]) == s[..j + 1] + s[j + 2..]
  {
    calc {
      [s[0]] + (s[1..][..j] + s[1..][j + 1..]);
      ([s[0]] + s[1..][..j]) + s[1..][j + 1..];
      { assert [s[0]] + s[1..][..j] == s[..j + 1]; }
      s[..j + 1] + s[1..][j + 1..];
      { assert s[1..][j + 1..] == s[j + 2..]; }
      s[..j + 1] + s[j + 2..];
    }
  }

  /** AcceptRoommateRequest keeps the number of rows of every avatar and of every lot. */
  lemma {:induction false} AcceptPendingCounts(rs: seq<Roommate>, a: AvatarId, l: LotId, b: AvatarId, m: LotId)
    ensures |RecordsOf(AcceptPending(rs, a, l), b)| == |RecordsOf(rs, b)|
    ensures |LotRecords(AcceptPending(rs, a, l), m)| == |LotRecords(rs, m)|
    decreases |rs|
  {
    if rs != [] {
      AcceptPendingCounts(rs[1..], a, l, b, m);
      var r := AcceptPending(rs, a, l);
      assert r[1..] == AcceptPending(rs[1..], a, l);
    }
  }

  /**
   * DeclineRoommateRequest never adds a row of an avatar or a lot, and
   * deletes one of lot `l` and one of avatar `a` when a pending row of
   * (a, l) is there.
   */
  lemma {:induction false} DeclinePendingCounts(rs: seq<Roommate>, a: AvatarId, l: LotId, b: AvatarId, m: LotId)
    ensures |RecordsOf(DeclinePending(rs, a, l), b)| <= |RecordsOf(rs, b)|
    ensures |LotRecords(DeclinePending(rs, a, l), m)| <= |LotRecords(rs, m)|
    ensures Roommate(a, l, true) in rs ==> |LotRecords(DeclinePending(rs, a, l), l)| < |LotRecords(rs, l)|
    ensures Roommate(a, l, true) in rs ==> |RecordsOf(DeclinePending(rs, a, l), a)| < |RecordsOf(rs, a)|
    decreases |rs|
  {
    if rs != [] {
      DeclinePendingCounts(rs[1..], a, l, b, m);
      DeclinePendingCounts(rs[1..], a, l, a, l);
      if rs[0] != Roommate(a, l, true) {
        var r := DeclinePending(rs, a, l);
        assert r[1..] == DeclinePending(rs[1..], a, l);
        assert Roommate(a, l, true) in rs ==> Roommate(a, l, true) in rs[1..];
      }
    }
  }

  /** RemoveRoommate never adds a row of an avatar or a lot. */
  lemma {:induction false} RemoveMemberCounts(rs: seq<Roommate>, a: AvatarId, l: LotId, b: AvatarId, m: LotId)
    ensures |RecordsOf(RemoveMember(rs, a, l), b)| <= |RecordsOf(rs, b)|
    ensures |LotRecords(RemoveMember(rs, a, l), m)| <= |LotRecords(rs, m)|
    decreases |rs|
  {
    if rs != [] {
      RemoveMemberCounts(rs[1..], a, l, b, m);
      if !(rs[0].avatar == a && rs[0].lot == l) {
        var r := RemoveMember(rs, a, l);
        assert r[1..] == RemoveMember(rs[1..], a, l);
      }
    }
  }

  /** AcceptRoommateRequest leaves the invitation of (a, l) confirmed and no longer pending. */
  lemma AcceptConfirms(rs: seq<Roommate>, a: AvatarId, l: LotId)
    requires Roommate(a, l, true) in rs
    ensures Roommate(a, l, false) in AcceptPending(rs, a, l)
    ensures Roommate(a, l, true) !in AcceptPending(rs, a, l)
  {
    var r := AcceptPending(rs, a, l);
    var i :| 0 <= i < |rs| && rs[i] == Roommate(a, l, true);
    assert r[i] == Roommate(a, l, false);
    forall k | 0 <= k < |r|
      ensures r[k] != Roommate(a, l, true)
    {
    }
  }

  /**
   * Where every avatar holds at most one row, declining the oldest pending
   * row of lot `l` cuts exactly that row out of the table.
   */
  lemma OldestPendingCut(rs: seq<Roommate>, l: LotId) returns (i: nat)
    requires OneRecordPerAvatar(rs) && First(LotRecords(rs, l), true).Some?
    ensures var p := First(LotRecords(rs, l), true).value;
      && i < |rs| && rs[i] == p && p.lot == l && p.pending
      && DeclinePending(rs, p.avatar, p.lot) == rs[..i] + rs[i + 1..]
  {
    var p := First(LotRecords(rs, l), true).value;
    assert p in LotRecords(rs, l);
    i := DeclineDeletesOne(rs, p.avatar, p.lot);
  }

  /** A list with more confirmed rows than rows of `t` holds a confirmed row of another avatar. */
  lemma {:induction false} ConfirmedOther(rs: seq<Roommate>, t: AvatarId)
    requires ConfirmedCount(rs) > |RecordsOf(rs, t)|
    ensures exists x :: x in rs && !x.pending && x.avatar != t
    decreases |rs|
  {
    if !(!rs[0].pending && rs[0].avatar != t) {
      ConfirmedOther(rs[1..], t);
      var x :| x in rs[1..] && !x.pending && x.avatar != t;
      assert x in rs;
    }
  }

  /** The rows of `t` in one lot are no more than the rows of `t`. */
  lemma {:induction false} LotRecordsOfAvatar(rs: seq<Roommate>, l: LotId, t: AvatarId)
    ensures |RecordsOf(LotRecords(rs, l), t)| <= |RecordsOf(rs, t)|
    decreases |rs|
  {
    if rs != [] {
      LotRecordsOfAvatar(rs[1..], l, t);
      if rs[0].lot == l {
        assert LotRecords(rs, l) == [rs[0]] + LotRecords(rs[1..], l);
        assert ([rs[0]] + LotRecords(rs[1..], l))[1..] == LotRecords(rs[1..], l);
      }
    }
  }
}
