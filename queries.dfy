/**
 * The roommate table as a list of rows in creation order: the queries the
 * handler runs on it (GetAvatarsLots, GetLotRoommates and the LINQ
 * predicates over their results) and the updates the store performs for it
 * (AcceptRoommateRequest, DeclineRoommateRequest, RemoveRoommate, Create).
 */
module Queries {
  import opened Types

  /** The rows of avatar `a`, in table order (Roommates.GetAvatarsLots). */
  function RecordsOf(rs: seq<Roommate>, a: AvatarId): (r: seq<Roommate>)
    ensures forall x :: x in r <==> x in rs && x.avatar == a
    ensures |r| <= |rs|
  {
    if rs == [] then []
    else if rs[0].avatar == a then [rs[0]] + RecordsOf(rs[1..], a)
    else RecordsOf(rs[1..], a)
  }

  /** The rows of lot `l`, in table order (Roommates.GetLotRoommates). */
  function LotRecords(rs: seq<Roommate>, l: LotId): (r: seq<Roommate>)
    ensures forall x :: x in r <==> x in rs && x.lot == l
    ensures |r| <= |rs|
  {
    if rs == [] then []
    else if rs[0].lot == l then [rs[0]] + LotRecords(rs[1..], l)
    else LotRecords(rs[1..], l)
  }

  /** The pending rows of a list, in order (the `is_pending == 1` test of the POLL loop). */
  function PendingOf(rs: seq<Roommate>): (r: seq<Roommate>)
    ensures forall x :: x in r <==> x in rs && x.pending
    ensures |r| <= |rs|
  {
    if rs == [] then []
    else
      assert rs == rs[..|rs| - 1] + [rs[|rs| - 1]];
      PendingOf(rs[..|rs| - 1]) + (if rs[|rs| - 1].pending then [rs[|rs| - 1]] else [])
  }

  /** The number of confirmed rows (`Count(x => x.is_pending == 0)`). */
  function ConfirmedCount(rs: seq<Roommate>): (n: nat)
    ensures n <= |rs|
    ensures n == 0 <==> forall x :: x in rs ==> x.pending
  {
    if rs == [] then 0
    else (if rs[0].pending then 0 else 1) + ConfirmedCount(rs[1..])
  }

  /** Some row of the list is a confirmed row of avatar `t` (`Any(...)`). */
  predicate HasConfirmed(rs: seq<Roommate>, t: AvatarId)
    ensures HasConfirmed(rs, t) <==> exists x :: x in RecordsOf(rs, t) && !x.pending
    ensures HasConfirmed(rs, t) ==> ConfirmedCount(rs) > 0
  {
    exists x :: x in rs && x.avatar == t && !x.pending
  }

  /**
   * The first row whose pending flag is `pending`: with `true` the oldest
   * pending invitation (`FirstOrDefault(x => x.is_pending == 1)`), with
   * `false` the oldest confirmed roommate.
   */
  function First(rs: seq<Roommate>, pending: bool): (r: Option<Roommate>)
    ensures r.None? <==> forall x :: x in rs ==> x.pending != pending
    ensures r.Some? ==> r.value.pending == pending
    ensures r.Some? ==>
      exists i :: 0 <= i < |rs| && rs[i] == r.value && forall k :: 0 <= k < i ==> rs[k].pending != pending
  {
    if rs == [] then None
    else if rs[0].pending == pending then Some(rs[0])
    else
      var r := First(rs[1..], pending);
      if r.Some? then
        ghost var i :| 0 <= i < |rs[1..]| && rs[1..][i] == r.value &&
          forall k :: 0 <= k < i ==> rs[1..][k].pending != pending;
        assert rs[i + 1] == r.value && forall k :: 0 <= k < i + 1 ==> rs[k].pending != pending;
        r
      else r
  }

  /** The number of rows of avatar `a` in lot `l`. */
  function CountMatching(rs: seq<Roommate>, a: AvatarId, l: LotId): (n: nat)
    ensures n <= |rs|
    ensures n == 0 <==> forall x :: x in rs ==> !(x.avatar == a && x.lot == l)
  {
    if rs == [] then 0
    else (if rs[0].avatar == a && rs[0].lot == l then 1 else 0) + CountMatching(rs[1..], a, l)
  }

  /** No row of the table belongs to avatar `a`. */
  predicate NoRecordOf(rs: seq<Roommate>, a: AvatarId)
  {
    forall x :: x in rs ==> x.avatar != a
  }

  /** Every avatar holds at most one row: the table's one-membership rule. */
  ghost predicate OneRecordPerAvatar(rs: seq<Roommate>)
  {
    forall a :: |RecordsOf(rs, a)| <= 1
  }

  /** Every lot holds at most `Capacity` rows, pending ones included. */
  ghost predicate WithinCapacity(rs: seq<Roommate>)
  {
    forall l :: |LotRecords(rs, l)| <= Capacity
  }

  /** The roommate cap the INVITE branch enforces (line 152). */
  const Capacity: nat := 8

  /**
   * AcceptRoommateRequest: every pending row of (a, l) becomes confirmed;
   * every other row, and the order, stays.
   */
  function AcceptPending(rs: seq<Roommate>, a: AvatarId, l: LotId): (r: seq<Roommate>)
    ensures |r| == |rs|
    ensures forall i :: 0 <= i < |rs| ==>
      r[i] == if rs[i] == Roommate(a, l, true) then Roommate(a, l, false) else rs[i]
  {
    if rs == [] then []
    else
      var h := if rs[0] == Roommate(a, l, true) then Roommate(a, l, false) else rs[0];
      [h] + AcceptPending(rs[1..], a, l)
  }

  /**
   * DeclineRoommateRequest: every pending row of (a, l) is deleted; the
   * other rows keep their order.
   */
  function DeclinePending(rs: seq<Roommate>, a: AvatarId, l: LotId): (r: seq<Roommate>)
    ensures forall x :: x in r <==> x in rs && x != Roommate(a, l, true)
    ensures Roommate(a, l, true) in rs ==> |r| < |rs|
    ensures Roommate(a, l, true) !in rs ==> r == rs
  {
    if rs == [] then []
    else if rs[0] == Roommate(a, l, true) then DeclinePending(rs[1..], a, l)
    else
      [rs[0]] + DeclinePending(rs[1..], a, l)
  }

  /**
   * RemoveRoommate: every row of (a, l), pending or not, is deleted; the
   * other rows keep their order.
   */
  function RemoveMember(rs: seq<Roommate>, a: AvatarId, l: LotId): (r: seq<Roommate>)
    ensures forall x :: x in r <==> x in rs && !(x.avatar == a && x.lot == l)
    ensures |r| + CountMatching(rs, a, l) == |rs|
  {
    if rs == [] then []
    else if rs[0].avatar == a && rs[0].lot == l then RemoveMember(rs[1..], a, l)
    else
      [rs[0]] + RemoveMember(rs[1..], a, l)
  }

  /**
   * ImmutableList.Remove: the first occurrence of `x` is dropped; a list
   * without `x` is returned unchanged.
   */
  function RemoveFirst(s: seq<AvatarId>, x: AvatarId): (r: seq<AvatarId>)
    ensures x !in s ==> r == s
    ensures x in s ==> |r| == |s| - 1
  {
    if s == [] then []
    else if s[0] == x then
      assert s == [s[0]] + s[1..];
      s[1..]
    else
      assert s == [s[0]] + s[1..];
      [s[0]] + RemoveFirst(s[1..], x)
  }

  /** RemoveFirst cuts the list at the first occurrence of `x`. */
  lemma {:induction false} RemoveFirstCuts(s: seq<AvatarId>, x: AvatarId) returns (i: nat)
    requires x in s
    ensures i < |s| && s[i] == x && x !in s[..i]
    ensures RemoveFirst(s, x) == s[..i] + s[i + 1..]
  {
    if s[0] == x {
      i := 0;
    } else {
      var t := s[1..];
      var j := RemoveFirstCuts(t, x);
      i := j + 1;
      assert RemoveFirst(s, x) == [s[0]] + RemoveFirst(t, x);
      assert s[..i] == [s[0]] + t[..j];
      assert s[i + 1..] == t[j + 1..];
      assert x !in s[..i];
    }
  }

  /** Records of the concatenation of two tables. */
  lemma {:induction false} RecordsOfAppend(s: seq<Roommate>, t: seq<Roommate>, a: AvatarId)
    ensures RecordsOf(s + t, a) == RecordsOf(s, a) + RecordsOf(t, a)
  {
    if s != [] {
      assert (s + t)[1..] == s[1..] + t;
      RecordsOfAppend(s[1..], t, a);
    } else {
      assert s + t == t;
    }
  }

  lemma {:induction false} LotRecordsAppend(s: seq<Roommate>, t: seq<Roommate>, l: LotId)
    ensures LotRecords(s + t, l) == LotRecords(s, l) + LotRecords(t, l)
  {
    if s != [] {
      assert (s + t)[1..] == s[1..] + t;
      LotRecordsAppend(s[1..], t, l);
    } else {
      assert s + t == t;
    }
  }
}
