/**
 * What the page derives from the loaded and the filtered table: the option
 * lists of the sidebar selectboxes, the active-filter pills, the header
 * count line, the text fields of the organisation detail page and the map
 * pin colour.
 */
module Views {
  import opened Strings
  import opened Sorting
  import opened Seqs
  import opened Classifier
  import opened Records
  import opened FilterEngine

  // ---------------------------------------------------------------------
  // Option lists
  // ---------------------------------------------------------------------

  /** The elements of every list that satisfy keep, list by list, in order:
      the generator `x for lst in lists for x in lst if keep(x)`. */
  function Tags(lists: seq<seq<string>>, keep: string -> bool): (r: seq<string>)
    ensures forall x :: x in r <==> keep(x) && exists l :: l in lists && x in l
  {
    if lists == [] then []
    else
      var rest := Tags(lists[1..], keep);
      assert forall l :: l in lists <==> l == lists[0] || l in lists[1..];
      Filter(lists[0], keep) + rest
  }

  /** The selectbox options: "All" and then the sorted distinct values. */
  function Options(values: seq<string>): (opts: seq<string>)
    ensures |opts| >= 1 && opts[0] == All
    ensures StrictlySorted(opts[1..])
    ensures forall x :: x in opts[1..] <==> x in values
  {
    var sorted := SortedDistinct(values);
    assert ([All] + sorted)[1..] == sorted;
    [All] + sorted
  }

  /** The Partner Status options: every status that occurs. */
  function StatusOptions(df: seq<Org>): (opts: seq<string>)
    ensures |opts| >= 1 && opts[0] == All && StrictlySorted(opts[1..])
    ensures forall x :: x in opts[1..] <==> exists o :: o in df && o.status == x
  {
    var statuses := Map(df, (o: Org) => o.status);
    forall x ensures x in statuses <==> exists o :: o in df && o.status == x {
      MapMembership(df, (o: Org) => o.status, x);
    }
    Options(statuses)
  }

  /** The Category options: every category of some row except "Unknown"
      ("Other" stays). */
  function CategoryOptions(df: seq<Org>): (opts: seq<string>)
    ensures |opts| >= 1 && opts[0] == All && StrictlySorted(opts[1..])
    ensures forall x :: x in opts[1..] <==> x != UnknownLabel && exists o :: o in df && x in o.catList
  {
    var lists := Map(df, (o: Org) => o.catList);
    forall l ensures l in lists <==> exists o :: o in df && o.catList == l {
      MapMembership(df, (o: Org) => o.catList, l);
    }
    Options(Tags(lists, (x: string) => x != UnknownLabel))
  }

  /** The Population Served options: every non-empty population tag. */
  function PopulationOptions(df: seq<Org>): (opts: seq<string>)
    ensures |opts| >= 1 && opts[0] == All && StrictlySorted(opts[1..])
    ensures forall x :: x in opts[1..] <==> x != [] && exists o :: o in df && x in o.popList
  {
    var lists := Map(df, (o: Org) => o.popList);
    forall l ensures l in lists <==> exists o :: o in df && o.popList == l {
      MapMembership(df, (o: Org) => o.popList, l);
    }
    Options(Tags(lists, (x: string) => x != []))
  }

  /** The Specific Service options: every non-empty service tag. */
  function ServiceOptions(df: seq<Org>): (opts: seq<string>)
    ensures |opts| >= 1 && opts[0] == All && StrictlySorted(opts[1..])
    ensures forall x :: x in opts[1..] <==> x != [] && exists o :: o in df && x in o.svcList
  {
    var lists := Map(df, (o: Org) => o.svcList);
    forall l ensures l in lists <==> exists o :: o in df && o.svcList == l {
      MapMembership(df, (o: Org) => o.svcList, l);
    }
    Options(Tags(lists, (x: string) => x != []))
  }

  /** The criteria with only one selectbox set. */
  function Only(f: Field, x: string): Criteria {
    var none := Criteria([], All, All, All, All);
    match f
    case Search => none.(search := x)
    case Status => none.(status := x)
    case Category => none.(category := x)
    case Population => none.(population := x)
    case Service => none.(service := x)
  }

  /** A row whose value for the selectbox is x passes the criteria that set
      only that selectbox to x. */
  lemma OnlyAdmits(f: Field, x: string, o: Org)
    requires f != Search
    requires f == Status ==> o.status == x
    requires f == Category ==> x in o.catList
    requires f == Population ==> x in o.popList
    requires f == Service ==> x in o.svcList
    ensures Admits(Only(f, x), o)
  {
    AdmitsSpelledOut(Only(f, x), o);
  }

  /** Every option the sidebar offers selects at least one organisation. */
  lemma OptionsAreSelectable(df: seq<Org>, f: Field, x: string)
    requires f != Search
    requires f == Status ==> x in StatusOptions(df)[1..]
    requires f == Category ==> x in CategoryOptions(df)[1..]
    requires f == Population ==> x in PopulationOptions(df)[1..]
    requires f == Service ==> x in ServiceOptions(df)[1..]
    ensures Select(df, Only(f, x)) != []
  {
    var o: Org;
    match f {
      case Status => o :| o in df && o.status == x;
      case Category => o :| o in df && x in o.catList;
      case Population => o :| o in df && x in o.popList;
      case Service => o :| o in df && x in o.svcList;
    }
    OnlyAdmits(f, x, o);
    assert o in Select(df, Only(f, x));
  }

  // ---------------------------------------------------------------------
  // Active-filter pills and the header line
  // ---------------------------------------------------------------------

  /** The criteria in the order their pills are shown. */
  const Fields: seq<Field> := [Search, Status, Category, Population, Service]

  /** The pill of one criterion: the search text in double quotes, otherwise
      the selected value. */
  function PillText(c: Criteria, f: Field): string {
    match f
    case Search => "\"" + c.search + "\""
    case Status => c.status
    case Category => c.category
    case Population => c.population
    case Service => c.service
  }

  /** The pills of the active criteria among fs, in the order of fs. */
  function PillsOf(c: Criteria, fs: seq<Field>): (pills: seq<string>)
    ensures |pills| <= |fs|
  {
    if fs == [] then []
    else (if Active(c, fs[0]) then [PillText(c, fs[0])] else []) + PillsOf(c, fs[1..])
  }

  /** The pills: one per active criterion, in the order of Fields. */
  function Pills(c: Criteria): seq<string> {
    PillsOf(c, Fields)
  }

  /** `active_filters`: built by appending, one `if` per criterion. */
  method ActiveFilters(c: Criteria) returns (pills: seq<string>)
    ensures pills == Pills(c)
  {
    pills := [];
    if c.search != [] {
      pills := pills + ["\"" + c.search + "\""];
    }
    assert pills == PillIfActive(c, Search);
    if c.status != All {
      pills := pills + [c.status];
    }
    assert pills == PillIfActive(c, Search) + PillIfActive(c, Status);
    if c.category != All {
      pills := pills + [c.category];
    }
    assert pills == PillIfActive(c, Search) + PillIfActive(c, Status) + PillIfActive(c, Category);
    if c.population != All {
      pills := pills + [c.population];
    }
    assert pills == PillIfActive(c, Search) + PillIfActive(c, Status) + PillIfActive(c, Category)
      + PillIfActive(c, Population);
    if c.service != All {
      pills := pills + [c.service];
    }
    PillsUnrolled(c);
  }

  /** The pill of one criterion when it is active, nothing otherwise. */
  function PillIfActive(c: Criteria, f: Field): seq<string> {
    if Active(c, f) then [PillText(c, f)] else []
  }

  /** The first step of PillsOf. */
  lemma PillsOfCons(c: Criteria, f: Field, fs: seq<Field>)
    ensures PillsOf(c, [f] + fs) == PillIfActive(c, f) + PillsOf(c, fs)
  {
    assert ([f] + fs)[1..] == fs;
  }

  /** Pills unrolled over the five criteria. */
  lemma PillsUnrolled(c: Criteria)
    ensures Pills(c) == PillIfActive(c, Search) + PillIfActive(c, Status) +
      PillIfActive(c, Category) + PillIfActive(c, Population) + PillIfActive(c, Service)
  {
    var t4: seq<Field> := [Service];
    var t3 := [Population] + t4;
    var t2 := [Category] + t3;
    var t1 := [Status] + t2;
    assert Fields == [Search] + t1;
    assert t4 == [Service] + [];
    PillsOfCons(c, Service, []);
    PillsOfCons(c, Population, t4);
    PillsOfCons(c, Category, t3);
    PillsOfCons(c, Status, t2);
    PillsOfCons(c, Search, t1);
  }

  /** There are no pills exactly when no criterion is active, and then the
      filtered table is the whole table. */
  lemma NoPillsIffNoneActive(df: seq<Org>, c: Criteria)
    ensures Pills(c) == [] <==> NoneActive(c)
    ensures Pills(c) == [] ==> Select(df, c) == df
  {
    PillsUnrolled(c);
    if NoneActive(c) {
      assert !Active(c, Search) && !Active(c, Status) && !Active(c, Category);
      assert !Active(c, Population) && !Active(c, Service);
      NoneActiveSelectsAll(df, c);
    }
  }

  /** An active search is always the first pill, in double quotes. */
  lemma SearchPillFirst(c: Criteria)
    requires c.search != []
    ensures Pills(c) != [] && Pills(c)[0] == "\"" + c.search + "\""
  {
    PillsUnrolled(c);
  }

  const Showing: string := "Showing "
  const ShowingAll: string := "Showing all "
  const Organizations: string := " organizations"

  /** The count line above the tabs. */
  function HeaderText(nFiltered: nat, nTotal: nat): (t: string)
    ensures StartsWith(t, Showing) && EndsWith(t, Organizations)
    ensures nFiltered == nTotal ==> t == ShowingAll + NatToString(nTotal) + Organizations
    ensures nFiltered != nTotal ==>
      t == Showing + NatToString(nFiltered) + " of " + NatToString(nTotal) + Organizations
  {
    if nFiltered == nTotal then ShowingAll + NatToString(nTotal) + Organizations
    else Showing + NatToString(nFiltered) + " of " + NatToString(nTotal) + Organizations
  }

  /** The header reads "Showing all N" exactly when nothing was filtered out. */
  lemma HeaderShowsAllIff(df: seq<Org>, c: Criteria)
    ensures StartsWith(HeaderText(|Select(df, c)|, |df|), ShowingAll) <==> Select(df, c) == df
  {
    var n := |Select(df, c)|;
    var t := HeaderText(n, |df|);
    SubseqLength(Select(df, c), df);
    if n != |df| {
      var d := NatToString(n);
      assert t[8] == d[0];
      assert IsDigit(d[0]);
      assert ShowingAll[8] == 'a';
    }
  }

  // ---------------------------------------------------------------------
  // Organisation detail page
  // ---------------------------------------------------------------------

  /** Python's `s or fallback` on strings. */
  function OrElse(s: string, fallback: string): (t: string)
    ensures s != [] ==> t == s
    ensures s == [] ==> t == fallback
  {
    if s != [] then s else fallback
  }

  const NotAvailable: string := "Not available"
  const NotSpecified: string := "Not specified"

  /** The non-empty address parts, in the order address, city, state, zip. */
  function AddressParts(o: Org): (parts: seq<string>)
    ensures forall p :: p in parts <==> p != [] && p in [o.address, o.city, o.state, o.zip]
    ensures parts == Present(o.address) + (Present(o.city) + (Present(o.state) + Present(o.zip)))
  {
    FilterFour(o.address, o.city, o.state, o.zip);
    Filter([o.address, o.city, o.state, o.zip], NonEmpty)
  }

  /** `if p` on one address part. */
  predicate NonEmpty(p: string) {
    p != []
  }

  /** One address part when it is non-empty, nothing otherwise. */
  function Present(p: string): seq<string> {
    if p != [] then [p] else []
  }

  lemma QuadSplit(a: string, b: string, c: string, d: string)
    ensures [a, b, c, d] == [a] + ([b] + ([c] + [d]))
  {
  }

  /** The non-empty parts of four, in their order. */
  lemma FilterFour(a: string, b: string, c: string, d: string)
    ensures Filter([a, b, c, d], NonEmpty) == Present(a) + (Present(b) + (Present(c) + Present(d)))
  {
    QuadSplit(a, b, c, d);
    FilterAppend([a], [b] + ([c] + [d]), NonEmpty);
    FilterAppend([b], [c] + [d], NonEmpty);
    FilterAppend([c], [d], NonEmpty);
    FilterOne(a);
    FilterOne(b);
    FilterOne(c);
    FilterOne(d);
  }

  lemma FilterOne(p: string)
    ensures Filter([p], NonEmpty) == Present(p)
  {
    assert [p][1..] == [];
  }

  /** The Location line: the non-empty parts joined by ", ", or
      "Not available" when there are none. */
  function AddressText(o: Org): (t: string)
    ensures AddressParts(o) == [] ==> t == NotAvailable
    ensures AddressParts(o) != [] ==>
      StartsWith(t, AddressParts(o)[0]) && EndsWith(t, AddressParts(o)[|AddressParts(o)| - 1])
  {
    var parts := AddressParts(o);
    if parts != [] then
      JoinEnds(parts, ", ");
      assert parts[0] in parts;
      OrElse(Join(parts, ", "), NotAvailable)
    else
      OrElse(Join(parts, ", "), NotAvailable)
  }

  /** The Organization Type line. */
  function OrgTypeText(o: Org): (t: string)
    ensures t != []
    ensures o.orgType != [] ==> t == o.orgType
    ensures o.orgType == [] ==> t == NotSpecified
  {
    OrElse(o.orgType, NotSpecified)
  }

  /** The Population Served line: the population tags joined by " · ", or
      "Not specified" when there are none. */
  function PopulationText(o: Org): (t: string)
    ensures o.popList == [] ==> t == NotSpecified
    ensures o.popList != [] ==>
      StartsWith(t, o.popList[0]) && EndsWith(t, o.popList[|o.popList| - 1])
  {
    if o.popList != [] then
      JoinEnds(o.popList, " · ");
      Join(o.popList, " · ")
    else NotSpecified
  }

  /** The Website line: a link, or "Not listed". */
  datatype Website = Link(href: string) | NotListed

  const Http: string := "http"
  const Https: string := "https://"

  /** A URL that starts with "http" is linked as it is, any other non-empty
      URL gets "https://" in front, an empty one is not listed. */
  function WebsiteOf(url: string): (w: Website)
    ensures w == NotListed <==> url == []
    ensures w.Link? ==> StartsWith(w.href, Http) && EndsWith(w.href, url)
    ensures StartsWith(url, Http) ==> w == Link(url)
    ensures url != [] && !StartsWith(url, Http) ==> w == Link(Https + url)
  {
    if url != [] && StartsWith(url, Http) then Link(url)
    else if url != [] then
      assert (Https + url)[..4] == Http;
      assert (Https + url)[|Https + url| - |url|..] == url;
      Link(Https + url)
    else NotListed
  }

  /** A link the page produces is left alone when it is linked again. */
  lemma WebsiteIdempotent(url: string)
    requires WebsiteOf(url).Link?
    ensures WebsiteOf(WebsiteOf(url).href) == WebsiteOf(url)
  {
  }

  // ---------------------------------------------------------------------
  // Map pins
  // ---------------------------------------------------------------------

  /** CAT_COLORS */
  const CatColors: map<string, string> := map[
    "Education" := "#e63946",
    "Youth Development" := "#f4a261",
    "Economic Mobility" := "#2a9d8f",
    "Family & Basic Needs" := "#e9c46a",
    "Health & Wellness" := "#457b9d",
    "Justice, Legal & Immigration" := "#6a0572",
    "Community & Civic Life" := "#2d6a4f",
    "Other" := "#94a3b8",
    "Unknown" := "#cbd5e1"
  ]

  /** The colour used for a label the palette does not know. */
  const DefaultPin: string := "#94a3b8"

  /** The pin colour of a row: the palette colour of its first category
      ("Unknown" for an empty list), or the default. */
  function PinColor(cats: seq<string>): (color: string)
    ensures cats != [] && cats[0] in CatColors ==> color == CatColors[cats[0]]
    ensures cats == [] ==> color == CatColors[UnknownLabel]
  {
    var key := if cats != [] then cats[0] else UnknownLabel;
    if key in CatColors then CatColors[key] else DefaultPin
  }

  /** Every label the classifier can produce has a palette colour. */
  lemma EveryLabelHasColor(c: string)
    requires IsCategory(c) || c == OtherLabel || c == UnknownLabel
    ensures c in CatColors
  {
    if IsCategory(c) {
      var j :| 0 <= j < |CategoryMap| && CategoryMap[j].name == c;
      assert j == 0 || j == 1 || j == 2 || j == 3 || j == 4 || j == 5 || j == 6;
    }
  }

  /** A loaded row's pin takes the palette colour of its alphabetically
      first category; the default is never used. */
  lemma LoadedPinColor(source: Option<seq<RawRow>>, o: Org)
    requires o in Load(source)
    ensures o.catList != [] && o.catList[0] in CatColors
    ensures PinColor(o.catList) == CatColors[o.catList[0]]
  {
    LoadWellFormed(source, o);
    assert o.catList[0] in o.catList;
    EveryLabelHasColor(o.catList[0]);
  }
}
