/** apps/api/src/utils/sync-table-assignments.ts: the list of a reservation's tables and its rows. */
module Assignments {
  import opened Common
  import opened Rows

  /** A table id as it arrives: None stands for a blank or non-string entry. */
  type RawId = Option<TableId>

  /** normalizeTableIds: blanks dropped, each table at its first occurrence. */
  function Normalize(raw: seq<RawId>): (list: seq<TableId>)
    ensures Distinct(list)
    ensures forall t :: t in list <==> Some(t) in raw
  {
    if raw == [] then []
    else
      var before := Normalize(raw[..|raw| - 1]);
      var last := raw[|raw| - 1];
      assert raw == raw[..|raw| - 1] + [last];
      if last.None? || last.value in before then before else before + [last.value]
  }

  /** Tables are listed in the order of their first occurrences: what comes later only adds at the end. */
  lemma {:induction false} NormalizeKeepsOrder(raw: seq<RawId>, n: nat)
    requires n <= |raw|
    ensures Normalize(raw[..n]) <= Normalize(raw)
  {
    if n < |raw| {
      NormalizeKeepsOrder(raw[..|raw| - 1], n);
      assert raw[..|raw| - 1][..n] == raw[..n];
    } else {
      assert raw[..n] == raw;
    }
  }

  function IndexOf(list: seq<TableId>, t: TableId): (i: nat)
    requires t in list
    ensures i < |list| && list[i] == t
  {
    if list[0] == t then 0 else 1 + IndexOf(list[1..], t)
  }

  /** The rows of a list: every table with its position. */
  function OrderMap(list: seq<TableId>): (rows: map<TableId, nat>)
    requires Distinct(list)
    ensures rows.Keys == Elements(list)
    ensures forall i :: 0 <= i < |list| ==> list[i] in rows && rows[list[i]] == i
  {
    map t | t in list :: IndexOf(list, t)
  }

  function Raw(list: seq<TableId>): seq<RawId> {
    seq(|list|, i requires 0 <= i < |list| => Some(list[i]))
  }

  /** The rows left behind by syncReservationTableAssignments. */
  function Synced(raw: seq<RawId>): map<TableId, nat> {
    OrderMap(Normalize(raw))
  }

  function OfOption(t: Option<TableId>): seq<RawId> {
    if t.Some? then [t] else []
  }

  ghost predicate Increasing(list: seq<TableId>) {
    forall i, j :: 0 <= i < j < |list| ==> list[i] < list[j]
  }

  function InsertId(t: TableId, list: seq<TableId>): (r: seq<TableId>)
    requires Increasing(list)
    ensures Increasing(r)
    ensures forall u :: u in r <==> u == t || u in list
  {
    if list == [] || t < list[0] then [t] + list
    else if t == list[0] then list
    else
      var rest := InsertId(t, list[1..]);
      assert forall i :: 0 <= i < |rest| ==> rest[i] in rest;
      assert forall u :: u in list[1..] ==> list[0] < u;
      [list[0]] + rest
  }

  /** SeatingService.normalizeTableIds: the distinct ids in increasing order. */
  function NormalizeSorted(raw: seq<RawId>): (list: seq<TableId>)
    ensures Increasing(list)
    ensures forall t :: t in list <==> Some(t) in raw
  {
    if raw == [] then []
    else
      var before := NormalizeSorted(raw[..|raw| - 1]);
      var last := raw[|raw| - 1];
      assert raw == raw[..|raw| - 1] + [last];
      if last.None? then before else InsertId(last.value, before)
  }

  // ---------- agreement of the rows with the primary table ----------

  /** Orders are exactly 0..n-1, and the primary is the row of order 0, or null when there is none. */
  ghost predicate Agrees(primary: Option<TableId>, rows: map<TableId, nat>) {
    && (forall k: nat :: k in rows.Values <==> k < |rows|)
    && (forall t, u :: t in rows && u in rows && rows[t] == rows[u] ==> t == u)
    && (primary.None? <==> rows == map[])
    && (primary.Some? ==> primary.value in rows && rows[primary.value] == 0)
  }

  lemma {:induction false} SizeOfElements<T>(list: seq<T>)
    requires Distinct(list)
    ensures |Elements(list)| == |list|
  {
    if list != [] {
      var init, last := list[..|list| - 1], list[|list| - 1];
      SizeOfElements(init);
      assert list == init + [last];
      assert last !in init;
      assert Elements(list) == Elements(init) + {last};
    } else {
      assert Elements(list) == {};
    }
  }

  lemma SyncAgrees(list: seq<TableId>)
    requires Distinct(list)
    ensures Agrees(if list == [] then None else Some(list[0]), OrderMap(list))
  {
    var rows := OrderMap(list);
    SizeOfElements(list);
    assert |rows| == |rows.Keys| == |list|;
    forall t, u | t in rows && u in rows && rows[t] == rows[u] ensures t == u {
      assert t in Elements(list) && u in Elements(list);
      var i :| 0 <= i < |list| && list[i] == t;
      var j :| 0 <= j < |list| && list[j] == u;
    }
    forall k: nat ensures k in rows.Values <==> k < |rows| {
      if k < |rows| {
        assert list[k] in rows;
      }
      if k in rows.Values {
        var t :| t in rows && rows[t] == k;
        assert t in Elements(list);
        var i :| 0 <= i < |list| && list[i] == t;
      }
    }
    if list == [] {
      assert rows.Keys == {};
    } else {
      assert list[0] in rows;
    }
  }

  lemma NormalizeOne(t: Option<TableId>)
    ensures Normalize(OfOption(t)) == if t.Some? then [t.value] else []
  {
  }

  /** Steps that name at most one table leave rows that agree with it. */
  lemma SyncOneAgrees(t: Option<TableId>)
    ensures Agrees(t, Synced(OfOption(t)))
    ensures Synced(OfOption(t)).Keys == if t.Some? then {t.value} else {}
  {
    NormalizeOne(t);
    SyncAgrees(Normalize(OfOption(t)));
    assert Synced(OfOption(t)).Keys == Elements(Normalize(OfOption(t)));
  }
}
