/** Filtering and ordering the user list. */
module UserOrder {
  import opened Text
  import opened Sorting
  import opened UserRows

  datatype Filters = Filters(query: string, userType: string, scannedOnly: bool, errorOnly: bool, coalition: string,
                             order: string)

  predicate Passes(r: Row, f: Filters) {
    var q := ToLower(TrimSpace(f.query));
    && (q == "" || Contains(ToLower(r.login), q) || Contains(ToLower(r.entry.fullName), q))
    && (f.userType == "" || r.userType == f.userType)
    && (f.scannedOnly ==> r.scanCount > 0)
    && (f.errorOnly ==> r.hasError)
    && (f.coalition == "" || r.coName == f.coalition)
  }

  function Passing(rows: seq<Row>, f: Filters): seq<Row> {
    if rows == [] then []
    else Passing(rows[..|rows| - 1], f) + if Passes(rows[|rows| - 1], f) then [rows[|rows| - 1]] else []
  }

  function NameOf(r: Row): string {
    if r.login != "" then ToLower(r.login) else ToLower(r.entry.fullName)
  }

  predicate Alphabetical(a: Row, b: Row) {
    Less(NameOf(a), NameOf(b))
  }

  predicate Blames(a: Row, b: Row) {
    if a.scanCount != b.scanCount then a.scanCount > b.scanCount else Less(NameOf(a), NameOf(b))
  }

  predicate Latest(a: Row, b: Row) {
    if a.lastScan.None? && b.lastScan.None? then Less(NameOf(a), NameOf(b))
    else if a.lastScan.None? then false
    else if b.lastScan.None? then true
    else if a.lastScan != b.lastScan then a.lastScan.value > b.lastScan.value
    else Less(NameOf(a), NameOf(b))
  }

  function Comparator(order: string): (Row, Row) -> bool {
    if order == "alphabetical" then Alphabetical else if order == "blames" then Blames else Latest
  }

  // ---- The comparators ----

  lemma NamesOrder(a: Row, b: Row, c: Row)
    ensures !Less(NameOf(a), NameOf(a))
    ensures Less(NameOf(a), NameOf(b)) && Less(NameOf(b), NameOf(c)) ==> Less(NameOf(a), NameOf(c))
    ensures NameOf(a) == NameOf(b) || Less(NameOf(a), NameOf(b)) || Less(NameOf(b), NameOf(a))
  {
    LessIrreflexive(NameOf(a));
    LessConnected(NameOf(a), NameOf(b));
    if Less(NameOf(a), NameOf(b)) && Less(NameOf(b), NameOf(c)) {
      LessTransitive(NameOf(a), NameOf(b), NameOf(c));
    }
  }

  /** Two rows tie exactly when the comparator's criterion and the name both agree. */
  predicate SamePlace(order: string, a: Row, b: Row) {
    && NameOf(a) == NameOf(b)
    && (if order == "alphabetical" then true else if order == "blames" then a.scanCount == b.scanCount
        else a.lastScan == b.lastScan)
  }

  lemma TiesAreSamePlaces(order: string, a: Row, b: Row)
    ensures Tied(Comparator(order), a, b) <==> SamePlace(order, a, b)
  {
    NamesOrder(a, b, a);
    NamesOrder(b, a, b);
  }

  lemma Transitive(order: string, a: Row, b: Row, c: Row)
    requires Comparator(order)(a, b) && Comparator(order)(b, c)
    ensures Comparator(order)(a, c)
  {
    NamesOrder(a, b, c);
  }

  /** Every order the list offers is one that a stable sort accepts. */
  lemma ComparatorsAreOrders(order: string)
    ensures StrictWeakOrder(Comparator(order))
  {
    var less := Comparator(order);
    forall a
      ensures !less(a, a)
    {
      NamesOrder(a, a, a);
    }
    forall a, b, c | less(a, b) && less(b, c)
      ensures less(a, c)
    {
      Transitive(order, a, b, c);
    }
    forall a, b, c | Tied(less, a, b) && Tied(less, b, c)
      ensures Tied(less, a, c)
    {
      TiesAreSamePlaces(order, a, b);
      TiesAreSamePlaces(order, b, c);
      TiesAreSamePlaces(order, a, c);
    }
  }

  // ---- The list ----

  method FilterUserRows(rows: seq<Row>, f: Filters) returns (out: seq<Row>)
    ensures out == Sort(Comparator(f.order), Passing(rows, f))
  {
    var q := ToLower(TrimSpace(f.query));
    out := [];
    for i := 0 to |rows|
      invariant out == Passing(rows[..i], f)
    {
      var r := rows[i];
      assert rows[..i + 1][..i] == rows[..i];
      if q != "" && !Contains(ToLower(r.login), q) && !Contains(ToLower(r.entry.fullName), q) { continue; }
      if f.userType != "" && r.userType != f.userType { continue; }
      if f.scannedOnly && r.scanCount == 0 { continue; }
      if f.errorOnly && !r.hasError { continue; }
      if f.coalition != "" && r.coName != f.coalition { continue; }
      out := out + [r];
    }
    assert rows[..|rows|] == rows;
    out := Sort(Comparator(f.order), out);
  }

  lemma {:induction false} PassingAre(rows: seq<Row>, f: Filters, r: Row)
    ensures multiset(Passing(rows, f))[r] == if Passes(r, f) then multiset(rows)[r] else 0
  {
    if rows != [] {
      var n := |rows| - 1;
      PassingAre(rows[..n], f, r);
      assert rows == rows[..n] + [rows[n]];
    }
  }

  /** What the list shows: the rows that pass every filter, each as often as it was there, in a stable order;
      and no other list is that. */
  lemma ListIsOrdered(rows: seq<Row>, f: Filters, out: seq<Row>)
    requires out == Sort(Comparator(f.order), Passing(rows, f))
    ensures forall r :: multiset(out)[r] == if Passes(r, f) then multiset(rows)[r] else 0
    ensures IsStableSort(Comparator(f.order), Passing(rows, f), out)
    ensures forall other :: IsStableSort(Comparator(f.order), Passing(rows, f), other) ==> other == out
  {
    var less := Comparator(f.order);
    ComparatorsAreOrders(f.order);
    SortIsStable(less, Passing(rows, f));
    SortIsPermutation(less, Passing(rows, f));
    forall r
      ensures multiset(out)[r] == if Passes(r, f) then multiset(rows)[r] else 0
    {
      PassingAre(rows, f, r);
    }
    forall other | IsStableSort(less, Passing(rows, f), other)
      ensures other == out
    {
      StableSortIsUnique(less, Passing(rows, f), other, out);
    }
  }

  /** a may stand above b in the list. */
  predicate MayPrecede(order: string, a: Row, b: Row) {
    var named := !Less(NameOf(b), NameOf(a));
    if order == "alphabetical" then named
    else if order == "blames" then a.scanCount > b.scanCount || (a.scanCount == b.scanCount && named)
    else if b.lastScan.None? then a.lastScan.Some? || named
    else a.lastScan.Some? && (a.lastScan.value > b.lastScan.value || (a.lastScan == b.lastScan && named))
  }

  /** Most blames or latest scan first, never scanned last, then by name; rows that tie in both keep
      the order they had. */
  lemma ListReads(rows: seq<Row>, f: Filters, out: seq<Row>)
    requires out == Sort(Comparator(f.order), Passing(rows, f))
    ensures forall i, j :: 0 <= i < j < |out| ==> MayPrecede(f.order, out[i], out[j])
    ensures forall x :: Like(Comparator(f.order), out, x) == Like(Comparator(f.order), Passing(rows, f), x)
    ensures forall x, y :: y in Like(Comparator(f.order), out, x) ==> SamePlace(f.order, y, x)
  {
    ListIsOrdered(rows, f, out);
    var less := Comparator(f.order);
    forall i, j | 0 <= i < j < |out|
      ensures MayPrecede(f.order, out[i], out[j])
    {
      assert !less(out[j], out[i]);
    }
    forall x, y | y in Like(less, out, x)
      ensures SamePlace(f.order, y, x)
    {
      LikeIsMember(less, out, x);
      TiesAreSamePlaces(f.order, y, x);
    }
  }

  lemma {:induction false} AllPassing(rows: seq<Row>, f: Filters)
    requires forall r :: r in rows ==> Passes(r, f)
    ensures Passing(rows, f) == rows
  {
    if rows != [] {
      var n := |rows| - 1;
      assert rows == rows[..n] + [rows[n]];
      AllPassing(rows[..n], f);
    }
  }

  /** Filtering the shown list again with the same filters changes nothing. */
  lemma FilteringTwice(rows: seq<Row>, f: Filters, out: seq<Row>)
    requires out == Sort(Comparator(f.order), Passing(rows, f))
    ensures Sort(Comparator(f.order), Passing(out, f)) == out
  {
    ListIsOrdered(rows, f, out);
    forall r | r in out
      ensures Passes(r, f)
    {
      assert multiset(out)[r] > 0;
    }
    AllPassing(out, f);
    var less := Comparator(f.order);
    ComparatorsAreOrders(f.order);
    SortIsStable(less, out);
    StableSortIsUnique(less, out, Sort(less, out), out);
  }

  /** The filters, one by one; the search text counts without surrounding space and in any letter case. */
  ghost predicate Wanted(r: Row, f: Filters) {
    var q := ToLower(TrimSpace(f.query));
    && (q != "" ==>
          || (exists i: nat :: OccursAt(ToLower(r.login), q, i))
          || (exists i: nat :: OccursAt(ToLower(r.entry.fullName), q, i)))
    && (f.userType != "" ==> r.userType == f.userType)
    && (f.scannedOnly ==> r.scanCount != 0)
    && (f.errorOnly ==> r.hasError)
    && (f.coalition != "" ==> r.coName == f.coalition)
  }

  /** What the list shows is exactly what was asked for, as often as it was there. */
  lemma ListShowsWanted(rows: seq<Row>, f: Filters, out: seq<Row>)
    requires out == Sort(Comparator(f.order), Passing(rows, f))
    ensures forall r :: multiset(out)[r] == if Wanted(r, f) then multiset(rows)[r] else 0
  {
    ListIsOrdered(rows, f, out);
    var q := ToLower(TrimSpace(f.query));
    forall r: Row
      ensures Passes(r, f) <==> Wanted(r, f)
    {
      ContainsExactly(ToLower(r.login), q);
      ContainsExactly(ToLower(r.entry.fullName), q);
    }
  }

  /** Rows are named by their login, or by the full name when they have none, in lower case; and names are
      ordered by their first difference. */
  lemma NamesAre(r: Row, d: Row)
    ensures NameOf(r) == ToLower(if r.login == "" then r.entry.fullName else r.login)
    ensures Less(NameOf(r), NameOf(d)) <==> exists k: nat :: FirstDifference(NameOf(r), NameOf(d), k)
  {
    LessExactly(NameOf(r), NameOf(d));
  }
}
