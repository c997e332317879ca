/** apps/api/src/idempotency/idempotency.service.ts: canonicalize, the form of a body that is hashed. */
module Canonical {
  /**
   * A JavaScript value. Numbers that are not finite, dates and buffers carry the text they are
   * rendered as; a record's properties come in the order in which they were written.
   */
  datatype Value =
    | Undefined
    | Null
    | Bool(b: bool)
    | Number(n: real)
    | NonFinite(text: string)
    | Text(text: string)
    | Date(iso: string)
    | Bytes(base64: string)
    | List(items: seq<Value>)
    | Record(entries: seq<Property>)

  datatype Property = Property(key: string, value: Value)

  /** How keys are compared; sorting needs no more than a total order. */
  type Order = (string, string) -> bool

  ghost predicate TotalOrder(leq: Order) {
    && (forall a, b :: leq(a, b) || leq(b, a))
    && (forall a, b :: leq(a, b) && leq(b, a) ==> a == b)
    && (forall a, b, c :: leq(a, b) && leq(b, c) ==> leq(a, c))
  }

  // ---------- canonicalize ----------

  function Canonicalize(leq: Order, v: Value): Value {
    match v
    case Undefined => Null
    case NonFinite(text) => Text(text)
    case Date(iso) => Text(iso)
    case Bytes(base64) => Text(base64)
    case List(items) => List(CanonicalItems(leq, items))
    case Record(entries) => Record(SortEntries(leq, CanonicalEntries(leq, entries)))
    case _ => v
  }

  function CanonicalItems(leq: Order, items: seq<Value>): (r: seq<Value>)
    ensures |r| == |items|
    ensures forall i :: 0 <= i < |r| ==> r[i] == Canonicalize(leq, items[i])
  {
    if items == [] then [] else [Canonicalize(leq, items[0])] + CanonicalItems(leq, items[1..])
  }

  /** Properties that are undefined are left out. The order is seen to afterwards. */
  function CanonicalEntries(leq: Order, entries: seq<Property>): seq<Property> {
    if entries == [] then []
    else
      var rest, e := CanonicalEntries(leq, entries[1..]), entries[0];
      if e.value.Undefined? then rest else [Property(e.key, Canonicalize(leq, e.value))] + rest
  }

  function InsertEntry(leq: Order, e: Property, entries: seq<Property>): (r: seq<Property>)
    ensures multiset(r) == multiset{e} + multiset(entries)
  {
    if entries == [] || leq(e.key, entries[0].key) then [e] + entries
    else
      assert entries == [entries[0]] + entries[1..];
      [entries[0]] + InsertEntry(leq, e, entries[1..])
  }

  function SortEntries(leq: Order, entries: seq<Property>): (r: seq<Property>)
    ensures multiset(r) == multiset(entries)
  {
    if entries == [] then []
    else
      assert entries == [entries[0]] + entries[1..];
      InsertEntry(leq, entries[0], SortEntries(leq, entries[1..]))
  }

  // ---------- equality up to the order of keys ----------

  /** The values that are no lists and no records, as JSON shows them. */
  function Scalar(v: Value): Value {
    match v
    case Undefined => Null
    case NonFinite(text) => Text(text)
    case Date(iso) => Text(iso)
    case Bytes(base64) => Text(base64)
    case _ => v
  }

  /** No record has a key twice. */
  ghost predicate WellFormed(v: Value) {
    match v
    case List(items) => forall i :: 0 <= i < |items| ==> WellFormed(items[i])
    case Record(entries) =>
      && (forall i, j :: 0 <= i < j < |entries| ==> entries[i].key != entries[j].key)
      && (forall i :: 0 <= i < |entries| ==> WellFormed(entries[i].value))
    case _ => true
  }

  /** Equal at every depth up to the order of keys, properties that are undefined counting as absent. */
  ghost predicate Same(a: Value, b: Value)
    decreases a
  {
    match (a, b)
    case (List(xs), List(ys)) =>
      |xs| == |ys| && forall i :: 0 <= i < |xs| ==> Same(xs[i], ys[i])
    case (Record(xs), Record(ys)) =>
      && (forall i :: 0 <= i < |xs| && !xs[i].value.Undefined? ==> Has(ys, xs[i]))
      && (forall j :: 0 <= j < |ys| && !ys[j].value.Undefined? ==> HasBack(xs, ys[j]))
    case _ => !a.List? && !a.Record? && !b.List? && !b.Record? && Scalar(a) == Scalar(b)
  }

  /** `ys` has the property `x` of the other record, with the same value; and the other way round. */
  ghost predicate Has(ys: seq<Property>, x: Property)
    decreases x
  {
    exists j :: 0 <= j < |ys| && ys[j].key == x.key && !ys[j].value.Undefined? && Same(x.value, ys[j].value)
  }

  ghost predicate HasBack(xs: seq<Property>, y: Property)
    decreases xs
  {
    exists i :: 0 <= i < |xs| && xs[i].key == y.key && !xs[i].value.Undefined? && Same(xs[i].value, y.value)
  }

  // ---------- sorted entries are determined by their elements ----------

  ghost predicate Sorted(leq: Order, entries: seq<Property>) {
    forall i, j :: 0 <= i < j < |entries| ==> leq(entries[i].key, entries[j].key) && entries[i].key != entries[j].key
  }

  ghost predicate KeysDiffer(entries: seq<Property>) {
    forall i, j :: 0 <= i < j < |entries| ==> entries[i].key != entries[j].key
  }

  lemma {:induction false} InsertIsSorted(leq: Order, e: Property, entries: seq<Property>)
    requires TotalOrder(leq) && Sorted(leq, entries) && forall f :: f in entries ==> f.key != e.key
    ensures Sorted(leq, InsertEntry(leq, e, entries))
  {
    if entries != [] && !leq(e.key, entries[0].key) {
      var rest := InsertEntry(leq, e, entries[1..]);
      InsertIsSorted(leq, e, entries[1..]);
      forall j | 0 <= j < |rest| ensures leq(entries[0].key, rest[j].key) && entries[0].key != rest[j].key {
        assert rest[j] in multiset(rest);
        assert rest[j] == e || rest[j] in entries[1..];
      }
    }
  }

  lemma {:induction false} SortIsSorted(leq: Order, entries: seq<Property>)
    requires TotalOrder(leq) && KeysDiffer(entries)
    ensures Sorted(leq, SortEntries(leq, entries))
  {
    if entries != [] {
      var tail := SortEntries(leq, entries[1..]);
      SortIsSorted(leq, entries[1..]);
      forall f | f in tail ensures f.key != entries[0].key {
        assert f in multiset(tail);
        var j :| 0 <= j < |entries[1..]| && entries[1..][j] == f;
        assert f == entries[j + 1];
      }
      InsertIsSorted(leq, entries[0], tail);
    }
  }

  lemma {:induction false} SortedIsUnique(leq: Order, xs: seq<Property>, ys: seq<Property>)
    requires TotalOrder(leq) && Sorted(leq, xs) && Sorted(leq, ys)
    requires forall e :: e in xs <==> e in ys
    ensures xs == ys
  {
    if xs == [] {
      if ys != [] { HeadIn(ys); }
    } else {
      assert xs[0] in xs && ys != [];
      assert ys[0] in ys;
      HeadsMeet(leq, xs, ys);
      assert xs == [xs[0]] + xs[1..] && ys == [ys[0]] + ys[1..];
      assert xs[0] !in xs[1..] && ys[0] !in ys[1..];
      forall e ensures e in xs[1..] <==> e in ys[1..] {
        assert e in xs[1..] ==> e in ys;
        assert e in ys[1..] ==> e in xs;
      }
      SortedIsUnique(leq, xs[1..], ys[1..]);
    }
  }

  lemma HeadIn(ys: seq<Property>)
    requires ys != []
    ensures ys[0] in ys
  {
  }

  lemma HeadsMeet(leq: Order, xs: seq<Property>, ys: seq<Property>)
    requires TotalOrder(leq) && Sorted(leq, xs) && Sorted(leq, ys) && xs != [] && ys != []
    requires xs[0] in ys && ys[0] in xs
    ensures xs[0] == ys[0]
  {
  }

  // ---------- the entries of a canonical record ----------

  lemma {:induction false} EntriesAre(leq: Order, entries: seq<Property>, e: Property)
    ensures e in CanonicalEntries(leq, entries) <==>
              exists i :: && 0 <= i < |entries|
                          && entries[i].key == e.key && !entries[i].value.Undefined?
                          && e.value == Canonicalize(leq, entries[i].value)
  {
    if entries != [] {
      EntriesAre(leq, entries[1..], e);
      if i :| && 0 <= i < |entries|
              && entries[i].key == e.key && !entries[i].value.Undefined?
              && e.value == Canonicalize(leq, entries[i].value)
      {
        if i > 0 { assert entries[1..][i - 1] == entries[i]; }
      }
      if e in CanonicalEntries(leq, entries[1..]) {
        var i :| 0 <= i < |entries[1..]| && entries[1..][i].key == e.key && !entries[1..][i].value.Undefined?
          && e.value == Canonicalize(leq, entries[1..][i].value);
        assert entries[i + 1] == entries[1..][i];
      }
    }
  }

  lemma {:induction false} EntriesDiffer(leq: Order, entries: seq<Property>)
    requires KeysDiffer(entries)
    ensures KeysDiffer(CanonicalEntries(leq, entries))
  {
    if entries != [] {
      EntriesDiffer(leq, entries[1..]);
      var rest := CanonicalEntries(leq, entries[1..]);
      forall j | 0 <= j < |rest| ensures rest[j].key != entries[0].key {
        EntriesAre(leq, entries[1..], rest[j]);
        assert rest[j] in rest;
        var i :| 0 <= i < |entries[1..]| && entries[1..][i].key == rest[j].key;
        assert entries[1..][i] == entries[i + 1];
      }
    }
  }

  /** Canonical records are equal exactly when they have the same properties. */
  lemma RecordsMeet(leq: Order, xs: seq<Property>, ys: seq<Property>)
    requires TotalOrder(leq) && KeysDiffer(xs) && KeysDiffer(ys)
    ensures Canonicalize(leq, Record(xs)) == Canonicalize(leq, Record(ys))
       <==> forall e :: e in CanonicalEntries(leq, xs) <==> e in CanonicalEntries(leq, ys)
  {
    RecordForm(leq, xs);
    RecordForm(leq, ys);
    EntriesDiffer(leq, xs);
    EntriesDiffer(leq, ys);
    SortedMeet(leq, CanonicalEntries(leq, xs), CanonicalEntries(leq, ys));
  }

  lemma RecordForm(leq: Order, xs: seq<Property>)
    ensures Canonicalize(leq, Record(xs)) == Record(SortEntries(leq, CanonicalEntries(leq, xs)))
  {
  }

  lemma SortedMeet(leq: Order, cx: seq<Property>, cy: seq<Property>)
    requires TotalOrder(leq) && KeysDiffer(cx) && KeysDiffer(cy)
    ensures SortEntries(leq, cx) == SortEntries(leq, cy) <==> forall e :: e in cx <==> e in cy
  {
    if forall e :: e in cx <==> e in cy {
      SortsAlike(leq, cx, cy);
    } else if SortEntries(leq, cx) == SortEntries(leq, cy) {
      EqualSorted(leq, cx, cy);
    }
  }

  lemma EqualSorted(leq: Order, cx: seq<Property>, cy: seq<Property>)
    requires SortEntries(leq, cx) == SortEntries(leq, cy)
    ensures forall e :: e in cx <==> e in cy
  {
    SortedElements(leq, cx);
    SortedElements(leq, cy);
  }

  lemma SortsAlike(leq: Order, cx: seq<Property>, cy: seq<Property>)
    requires TotalOrder(leq) && KeysDiffer(cx) && KeysDiffer(cy) && forall e :: e in cx <==> e in cy
    ensures SortEntries(leq, cx) == SortEntries(leq, cy)
  {
    SortIsSorted(leq, cx);
    SortIsSorted(leq, cy);
    SortedElements(leq, cx);
    SortedElements(leq, cy);
    SortedIsUnique(leq, SortEntries(leq, cx), SortEntries(leq, cy));
  }

  lemma SortedElements(leq: Order, entries: seq<Property>)
    ensures forall e :: e in SortEntries(leq, entries) <==> e in entries
  {
    forall e ensures e in SortEntries(leq, entries) <==> e in entries {
      assert e in SortEntries(leq, entries) <==> e in multiset(SortEntries(leq, entries));
    }
  }

  // ---------- canonical forms decide sameness ----------

  /** Two bodies have the same canonical form exactly when they are equal up to the order of keys. */
  lemma {:induction false} CanonicalIffSame(leq: Order, a: Value, b: Value)
    requires TotalOrder(leq) && WellFormed(a) && WellFormed(b)
    ensures Canonicalize(leq, a) == Canonicalize(leq, b) <==> Same(a, b)
    decreases a
  {
    match (a, b) {
      case (List(xs), List(ys)) =>
        forall i | 0 <= i < |xs| && |xs| == |ys|
          ensures Canonicalize(leq, xs[i]) == Canonicalize(leq, ys[i]) <==> Same(xs[i], ys[i])
        {
          CanonicalIffSame(leq, xs[i], ys[i]);
        }
        ListsMeet(leq, xs, ys);
      case (Record(xs), Record(ys)) =>
        forall x, y | x in xs && y in ys
          ensures Canonicalize(leq, x.value) == Canonicalize(leq, y.value) <==> Same(x.value, y.value)
        {
          CanonicalIffSame(leq, x.value, y.value);
        }
        RecordsMeet(leq, xs, ys);
        PropertiesMeet(leq, xs, ys);
      case _ =>
    }
  }

  lemma ListsMeet(leq: Order, xs: seq<Value>, ys: seq<Value>)
    ensures CanonicalItems(leq, xs) == CanonicalItems(leq, ys)
       <==> |xs| == |ys| && forall i :: 0 <= i < |xs| ==> Canonicalize(leq, xs[i]) == Canonicalize(leq, ys[i])
  {
    var cx, cy := CanonicalItems(leq, xs), CanonicalItems(leq, ys);
    if cx == cy {
      forall i | 0 <= i < |xs| ensures Canonicalize(leq, xs[i]) == Canonicalize(leq, ys[i]) {
        assert cx[i] == cy[i];
      }
    }
  }

  ghost predicate Decided(leq: Order, xs: seq<Property>, ys: seq<Property>) {
    forall x, y :: x in xs && y in ys ==>
      (Canonicalize(leq, x.value) == Canonicalize(leq, y.value) <==> Same(x.value, y.value))
  }

  function Canonically(leq: Order, x: Property): Property {
    Property(x.key, Canonicalize(leq, x.value))
  }

  lemma PropertiesMeet(leq: Order, xs: seq<Property>, ys: seq<Property>)
    requires Decided(leq, xs, ys)
    ensures (forall e :: e in CanonicalEntries(leq, xs) <==> e in CanonicalEntries(leq, ys)) <==>
              Same(Record(xs), Record(ys))
  {
    if Same(Record(xs), Record(ys)) {
      SameThenEntries(leq, xs, ys);
    } else if forall e :: e in CanonicalEntries(leq, xs) <==> e in CanonicalEntries(leq, ys) {
      EntriesThenProperties(leq, xs, ys);
    }
  }

  lemma SameThenEntries(leq: Order, xs: seq<Property>, ys: seq<Property>)
    requires Decided(leq, xs, ys) && Same(Record(xs), Record(ys))
    ensures forall e :: e in CanonicalEntries(leq, xs) <==> e in CanonicalEntries(leq, ys)
  {
    PropertiesThenEntries(leq, xs, ys);
  }

  lemma EntriesThenProperties(leq: Order, xs: seq<Property>, ys: seq<Property>)
    requires Decided(leq, xs, ys) && forall e :: e in CanonicalEntries(leq, xs) <==> e in CanonicalEntries(leq, ys)
    ensures Same(Record(xs), Record(ys))
  {
    forall i | 0 <= i < |xs| && !xs[i].value.Undefined? ensures Has(ys, xs[i]) {
      EntriesAre(leq, xs, Canonically(leq, xs[i]));
      EntryMeets(leq, xs, xs[i], ys);
    }
    forall j | 0 <= j < |ys| && !ys[j].value.Undefined? ensures HasBack(xs, ys[j]) {
      EntriesAre(leq, ys, Canonically(leq, ys[j]));
      EntryMeetsBack(leq, xs, ys, ys[j]);
    }
  }

  lemma PropertiesThenEntries(leq: Order, xs: seq<Property>, ys: seq<Property>)
    requires Decided(leq, xs, ys)
    requires forall i :: 0 <= i < |xs| && !xs[i].value.Undefined? ==> Has(ys, xs[i])
    requires forall j :: 0 <= j < |ys| && !ys[j].value.Undefined? ==> HasBack(xs, ys[j])
    ensures forall e :: e in CanonicalEntries(leq, xs) <==> e in CanonicalEntries(leq, ys)
  {
    forall e | e in CanonicalEntries(leq, xs) ensures e in CanonicalEntries(leq, ys) {
      var i := EntryFrom(leq, xs, e);
      EntryMeets(leq, xs, xs[i], ys);
    }
    forall e | e in CanonicalEntries(leq, ys) ensures e in CanonicalEntries(leq, xs) {
      var j := EntryFrom(leq, ys, e);
      EntryMeetsBack(leq, xs, ys, ys[j]);
    }
  }

  lemma EntryFrom(leq: Order, xs: seq<Property>, e: Property) returns (i: nat)
    requires e in CanonicalEntries(leq, xs)
    ensures i < |xs| && !xs[i].value.Undefined? && e == Canonically(leq, xs[i])
  {
    EntriesAre(leq, xs, e);
    i :| 0 <= i < |xs| && xs[i].key == e.key && !xs[i].value.Undefined? && e.value == Canonicalize(leq, xs[i].value);
  }

  lemma EntryMeets(leq: Order, xs: seq<Property>, x: Property, ys: seq<Property>)
    requires Decided(leq, xs, ys) && x in xs
    ensures Canonically(leq, x) in CanonicalEntries(leq, ys) <==> Has(ys, x)
  {
    EntriesAre(leq, ys, Canonically(leq, x));
    if Has(ys, x) {
      var j :| 0 <= j < |ys| && ys[j].key == x.key && !ys[j].value.Undefined? && Same(x.value, ys[j].value);
      assert ys[j] in ys;
    }
  }

  lemma EntryMeetsBack(leq: Order, xs: seq<Property>, ys: seq<Property>, y: Property)
    requires Decided(leq, xs, ys) && y in ys
    ensures Canonically(leq, y) in CanonicalEntries(leq, xs) <==> HasBack(xs, y)
  {
    EntriesAre(leq, xs, Canonically(leq, y));
    if HasBack(xs, y) {
      var i :| 0 <= i < |xs| && xs[i].key == y.key && !xs[i].value.Undefined? && Same(xs[i].value, y.value);
      assert xs[i] in xs;
    }
  }

  // ---------- consequences ----------

  lemma {:induction false} CanonicalIsWellFormed(leq: Order, v: Value)
    requires TotalOrder(leq) && WellFormed(v)
    ensures WellFormed(Canonicalize(leq, v)) && Same(v, Canonicalize(leq, v))
  {
    match v {
      case List(items) =>
        forall i | 0 <= i < |items|
          ensures WellFormed(Canonicalize(leq, items[i])) && Same(items[i], Canonicalize(leq, items[i]))
        {
          CanonicalIsWellFormed(leq, items[i]);
        }
      case Record(entries) =>
        forall i | 0 <= i < |entries|
          ensures WellFormed(Canonicalize(leq, entries[i].value))
                    && Same(entries[i].value, Canonicalize(leq, entries[i].value))
        {
          CanonicalIsWellFormed(leq, entries[i].value);
        }
        CanonicalRecord(leq, entries);
      case _ =>
    }
  }

  lemma CanonicalRecord(leq: Order, xs: seq<Property>)
    requires TotalOrder(leq) && KeysDiffer(xs)
    requires forall i :: 0 <= i < |xs| ==>
              WellFormed(Canonicalize(leq, xs[i].value)) && Same(xs[i].value, Canonicalize(leq, xs[i].value))
    ensures WellFormed(Canonicalize(leq, Record(xs))) && Same(Record(xs), Canonicalize(leq, Record(xs)))
  {
    var cx := CanonicalEntries(leq, xs);
    var ys := SortEntries(leq, cx);
    EntriesDiffer(leq, xs);
    SortIsSorted(leq, cx);
    SortedElements(leq, cx);
    forall j | 0 <= j < |ys| ensures WellFormed(ys[j].value) && HasBack(xs, ys[j]) {
      assert ys[j] in ys;
      EntryIsBacked(leq, xs, ys[j]);
    }
    forall i | 0 <= i < |xs| && !xs[i].value.Undefined? ensures Has(ys, xs[i]) {
      EntriesAre(leq, xs, Canonically(leq, xs[i]));
      PropertyIsKept(leq, xs[i], ys);
    }
  }

  lemma EntryIsBacked(leq: Order, xs: seq<Property>, e: Property)
    requires e in CanonicalEntries(leq, xs)
    requires forall i :: 0 <= i < |xs| ==>
              WellFormed(Canonicalize(leq, xs[i].value)) && Same(xs[i].value, Canonicalize(leq, xs[i].value))
    ensures WellFormed(e.value) && HasBack(xs, e)
  {
    EntriesAre(leq, xs, e);
  }

  lemma PropertyIsKept(leq: Order, x: Property, ys: seq<Property>)
    requires Canonically(leq, x) in ys && Same(x.value, Canonicalize(leq, x.value))
    ensures Has(ys, x)
  {
  }

  /** A canonical form is its own canonical form. */
  lemma CanonicalizeIsIdempotent(leq: Order, v: Value)
    requires TotalOrder(leq) && WellFormed(v)
    ensures Canonicalize(leq, Canonicalize(leq, v)) == Canonicalize(leq, v)
  {
    CanonicalIsWellFormed(leq, v);
    CanonicalIffSame(leq, v, Canonicalize(leq, v));
  }

  /** Writing the properties of a record in another order changes nothing. */
  lemma KeyOrderIsIrrelevant(leq: Order, xs: seq<Property>, ys: seq<Property>)
    requires TotalOrder(leq) && WellFormed(Record(xs)) && WellFormed(Record(ys)) && multiset(xs) == multiset(ys)
    ensures Canonicalize(leq, Record(xs)) == Canonicalize(leq, Record(ys))
  {
    forall e ensures e in CanonicalEntries(leq, xs) <==> e in CanonicalEntries(leq, ys) {
      EntriesAre(leq, xs, e);
      EntriesAre(leq, ys, e);
      forall i | 0 <= i < |xs| ensures exists j :: 0 <= j < |ys| && ys[j] == xs[i] {
        assert xs[i] in multiset(ys);
      }
      forall j | 0 <= j < |ys| ensures exists i :: 0 <= i < |xs| && xs[i] == ys[j] {
        assert ys[j] in multiset(xs);
      }
    }
    RecordsMeet(leq, xs, ys);
  }

  /**
   * Two bodies get the same hash exactly when they are the same up to the order of keys, unless
   * their canonical forms collide.
   */
  lemma SameHashMeansSameBody(leq: Order, hash: Value -> nat, a: Value, b: Value)
    requires TotalOrder(leq) && WellFormed(a) && WellFormed(b)
    requires hash(Canonicalize(leq, a)) == hash(Canonicalize(leq, b)) ==> Canonicalize(leq, a) == Canonicalize(leq, b)
    ensures hash(Canonicalize(leq, a)) == hash(Canonicalize(leq, b)) <==> Same(a, b)
  {
    CanonicalIffSame(leq, a, b);
  }

  /** Of JSON's own scalars no two different ones are the same, and none is a list or a record. */
  lemma ScalarsAreTold(a: Value, b: Value)
    requires a.Null? || a.Bool? || a.Number? || a.Text?
    requires b.Null? || b.Bool? || b.Number? || b.Text? || b.List? || b.Record?
    ensures Same(a, b) <==> a == b
  {
  }

  /** What JSON cannot write is the same as what it writes instead. */
  lemma RenderedAlike(text: string)
    ensures Same(Undefined, Null) && Same(NonFinite(text), Text(text)) && Same(Date(text), Text(text))
              && Same(Bytes(text), Text(text))
  {
  }
}
