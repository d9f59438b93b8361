/**
 * The sidebar filter pipeline: an optional search text and four optional
 * selections ("All" means no selection), applied one after the other to the
 * loaded table, each step keeping the rows that pass it in their order.
 */
module FilterEngine {
  import opened Strings
  import opened Seqs
  import opened Records

  /** The selectbox value that switches a criterion off. */
  const All: string := "All"

  /** The sidebar state: the search box and the four selectboxes. */
  datatype Criteria = Criteria(
    search: string, status: string, category: string, population: string, service: string)

  /** The five criteria, in the order the pipeline applies them. */
  datatype Field = Search | Status | Category | Population | Service

  /** Case-insensitive occurrence of the search text in one cell. */
  predicate CellMatches(cell: string, search: string) {
    Contains(Lower(cell), Lower(search))
  }

  /** The search hits the name, the service-area text or the city. */
  predicate SearchHit(o: Org, search: string) {
    CellMatches(o.name, search) || CellMatches(o.serviceArea, search) || CellMatches(o.city, search)
  }

  /** Whether a criterion is switched on. */
  predicate Active(c: Criteria, f: Field) {
    match f
    case Search => c.search != []
    case Status => c.status != All
    case Category => c.category != All
    case Population => c.population != All
    case Service => c.service != All
  }

  /** The test an active criterion puts to a row. */
  predicate Test(c: Criteria, f: Field, o: Org) {
    match f
    case Search => SearchHit(o, c.search)
    case Status => o.status == c.status
    case Category => c.category in o.catList
    case Population => c.population in o.popList
    case Service => c.service in o.svcList
  }

  /** The test of one criterion, as a filter predicate. */
  function By(c: Criteria, f: Field): Org -> bool {
    o => Test(c, f, o)
  }

  /** A row passes a criterion when the criterion is off or its test holds. */
  predicate Passes(c: Criteria, f: Field, o: Org) {
    Active(c, f) ==> Test(c, f, o)
  }

  /** The criteria in pipeline order. */
  function Order(k: nat): Field
    requires k < 5
  {
    if k == 0 then Search
    else if k == 1 then Status
    else if k == 2 then Category
    else if k == 3 then Population
    else Service
  }

  /** A row passes the first n criteria of the pipeline. */
  predicate PassesFirst(c: Criteria, o: Org, n: nat) {
    forall k :: 0 <= k < n && k < 5 ==> Passes(c, Order(k), o)
  }

  /** A row passes every criterion. */
  predicate Admits(c: Criteria, o: Org) {
    PassesFirst(c, o, 5)
  }

  /** Admits written out criterion by criterion, as the filter block reads:
      an empty search or "All" lets every row through. */
  lemma AdmitsSpelledOut(c: Criteria, o: Org)
    ensures Admits(c, o) <==>
      && (c.search == [] || SearchHit(o, c.search))
      && (c.status == All || o.status == c.status)
      && (c.category == All || c.category in o.catList)
      && (c.population == All || c.population in o.popList)
      && (c.service == All || c.service in o.svcList)
  {
    assert Order(0) == Search && Order(1) == Status && Order(2) == Category;
    assert Order(3) == Population && Order(4) == Service;
  }

  /** The rows that pass the first n criteria, as a filter predicate. */
  function Stage(c: Criteria, n: nat): Org -> bool {
    o => PassesFirst(c, o, n)
  }

  /** The filtered table: the rows of df that pass every criterion, in order. */
  function Select(df: seq<Org>, c: Criteria): (r: seq<Org>)
    ensures forall o :: o in r <==> o in df && Admits(c, o)
    ensures Subseq(r, df)
  {
    FilterIsSubseq(df, Stage(c, 5));
    Filter(df, Stage(c, 5))
  }

  /** Rows are judged one by one and keep their order and multiplicity:
      filtering a concatenation concatenates the results. */
  lemma SelectAppend(a: seq<Org>, b: seq<Org>, c: Criteria)
    ensures Select(a + b, c) == Select(a, c) + Select(b, c)
  {
    FilterAppend(a, b, Stage(c, 5));
  }

  /** A single row is kept exactly when it passes every criterion. */
  lemma SelectOne(o: Org, c: Criteria)
    ensures Select([o], c) == if Admits(c, o) then [o] else []
  {
    assert [o][1..] == [];
  }

  /** One step of the filter block: keep the rows that pass the test of
      criterion f when it is on; keep every row when it is off. */
  function Narrow(rows: seq<Org>, c: Criteria, f: Field): (r: seq<Org>)
    ensures forall o :: o in r <==> o in rows && Passes(c, f, o)
  {
    if Active(c, f) then Filter(rows, By(c, f)) else rows
  }

  /** The rows of df that pass the first n criteria, in order. */
  function Passing(df: seq<Org>, c: Criteria, n: nat): seq<Org> {
    Filter(df, Stage(c, n))
  }

  /** Narrowing the rows that pass the first n criteria by criterion n gives
      the rows that pass the first n + 1. */
  lemma StepOk(df: seq<Org>, c: Criteria, n: nat)
    requires n < 5
    ensures Narrow(Passing(df, c, n), c, Order(n)) == Passing(df, c, n + 1)
  {
    if Active(c, Order(n)) {
      FilterTwice(df, Stage(c, n), By(c, Order(n)), Stage(c, n + 1));
    } else {
      FilterExtensional(df, Stage(c, n), Stage(c, n + 1));
    }
  }

  /** The five steps in the order of the filter block. */
  function Pipeline(df: seq<Org>, c: Criteria): seq<Org> {
    Narrow(Narrow(Narrow(Narrow(Narrow(df, c, Search), c, Status), c, Category), c, Population), c, Service)
  }

  /** Applying the criteria one after the other keeps exactly the rows that
      pass all of them, in their order. */
  lemma PipelineIsSelect(df: seq<Org>, c: Criteria)
    ensures Pipeline(df, c) == Select(df, c)
  {
    var p1 := Narrow(df, c, Search);
    assert p1 == Passing(df, c, 1) by {
      FilterAll(df, Stage(c, 0));
      StepOk(df, c, 0);
    }
    var p2 := Narrow(p1, c, Status);
    assert p2 == Passing(df, c, 2) by {
      StepOk(df, c, 1);
    }
    var p3 := Narrow(p2, c, Category);
    assert p3 == Passing(df, c, 3) by {
      StepOk(df, c, 2);
    }
    var p4 := Narrow(p3, c, Population);
    assert p4 == Passing(df, c, 4) by {
      StepOk(df, c, 3);
    }
    assert Narrow(p4, c, Service) == Passing(df, c, 5) by {
      StepOk(df, c, 4);
    }
  }

  /** The filter block: `filtered` is narrowed by each active criterion in
      turn; the result is the filtered table. */
  method ApplyFilters(df: seq<Org>, c: Criteria) returns (filtered: seq<Org>)
    ensures filtered == Select(df, c)
  {
    filtered := df;
    if c.search != [] {
      filtered := Filter(filtered, By(c, Search));
    }
    if c.status != All {
      filtered := Filter(filtered, By(c, Status));
    }
    if c.category != All {
      filtered := Filter(filtered, By(c, Category));
    }
    if c.population != All {
      filtered := Filter(filtered, By(c, Population));
    }
    if c.service != All {
      filtered := Filter(filtered, By(c, Service));
    }
    PipelineIsSelect(df, c);
  }

  /** Every criterion is off. */
  predicate NoneActive(c: Criteria) {
    forall f: Field :: !Active(c, f)
  }

  /** With every criterion off the filtered table is the whole table. */
  lemma NoneActiveSelectsAll(df: seq<Org>, c: Criteria)
    requires NoneActive(c)
    ensures Select(df, c) == df
  {
    FilterAll(df, Stage(c, 5));
  }

  /** The criteria with one of them switched off. */
  function Drop(c: Criteria, f: Field): (d: Criteria)
    ensures !Active(d, f)
    ensures forall g :: g != f ==> (Active(d, g) <==> Active(c, g))
    ensures forall g, o :: g != f ==> (Test(d, g, o) <==> Test(c, g, o))
    ensures f != Search ==> d.search == c.search
    ensures f != Status ==> d.status == c.status
    ensures f != Category ==> d.category == c.category
    ensures f != Population ==> d.population == c.population
    ensures f != Service ==> d.service == c.service
  {
    match f
    case Search => c.(search := [])
    case Status => c.(status := All)
    case Category => c.(category := All)
    case Population => c.(population := All)
    case Service => c.(service := All)
  }

  /** Switching one criterion off never removes a row from the result: the
      old result is an order-preserving subsequence of the new one. */
  lemma DropWidens(df: seq<Org>, c: Criteria, f: Field)
    ensures Subseq(Select(df, c), Select(df, Drop(c, f)))
  {
    var d := Drop(c, f);
    forall o | o in df && Stage(c, 5)(o) ensures Stage(d, 5)(o) {
      forall k | 0 <= k < 5 ensures Passes(d, Order(k), o) {
        assert Passes(c, Order(k), o);
        if Order(k) != f {
          assert Test(d, Order(k), o) == Test(c, Order(k), o);
        }
      }
    }
    FilterMonotone(df, Stage(c, 5), Stage(d, 5));
  }

  /** Filtering an already filtered table again changes nothing. */
  lemma SelectIdempotent(df: seq<Org>, c: Criteria)
    ensures Select(Select(df, c), c) == Select(df, c)
  {
    FilterTwice(df, Stage(c, 5), Stage(c, 5), Stage(c, 5));
  }
}
