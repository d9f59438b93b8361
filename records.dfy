/**
 * The organisation table and `load_data`'s normalisation: rows whose name is
 * blank are dropped, the tag lists are derived from the service-area and
 * population cells, and the status is stripped with "Unknown" for blanks.
 */
module Records {
  import opened Strings
  import opened Sorting
  import opened Seqs
  import opened TagSplit
  import opened Classifier

  /** One CSV row as read with every column as text and missing cells as "". */
  datatype RawRow = RawRow(
    name: string, address: string, city: string, state: string, zip: string,
    url: string, status: string, orgType: string, population: string,
    serviceArea: string, latitude: string, longitude: string)

  /** One row of the loaded table: the text columns plus the derived lists. */
  datatype Org = Org(
    name: string, address: string, city: string, state: string, zip: string,
    url: string, status: string, orgType: string, population: string,
    serviceArea: string, latitude: string, longitude: string,
    svcList: seq<string>, popList: seq<string>, catList: seq<string>)

  /** The status shown for a blank status cell. */
  const UnknownStatus: string := "Unknown"

  /** `df["Name"].str.strip() != ""` */
  predicate HasName(r: RawRow) {
    Strip(r.name) != []
  }

  /** `.str.strip().replace("", "Unknown")` on one status cell. */
  function NormaliseStatus(s: string): (r: string)
    ensures r != [] && IsStripped(r)
    ensures AllSpace(s) ==> r == UnknownStatus
    ensures !AllSpace(s) ==> r == Strip(s)
  {
    var t := Strip(s);
    assert IsStripped(UnknownStatus);
    if t == [] then UnknownStatus else t
  }

  /** Normalising a status that is already normalised changes nothing. */
  lemma NormaliseStatusIdempotent(s: string)
    ensures NormaliseStatus(NormaliseStatus(s)) == NormaliseStatus(s)
  {
    StrippedNotBlank(NormaliseStatus(s));
  }

  /** One kept row: the derived columns SvcList, PopList, CatList and the
      normalised Status; every other column unchanged. */
  function Normalise(r: RawRow): Org {
    Org(r.name, r.address, r.city, r.state, r.zip, r.url, NormaliseStatus(r.status),
        r.orgType, r.population, r.serviceArea, r.latitude, r.longitude,
        SmartSplit(r.serviceArea), SmartSplit(r.population), Categories(r.serviceArea))
  }

  /** What a well-formed loaded row satisfies. */
  ghost predicate WellFormed(o: Org) {
    && Strip(o.name) != []
    && o.status != [] && IsStripped(o.status)
    && (forall t :: t in o.svcList ==> t != [] && IsStripped(t))
    && (forall t :: t in o.popList ==> t != [] && IsStripped(t))
    && o.catList != [] && StrictlySorted(o.catList)
    && (forall c :: c in o.catList ==> IsCategory(c) || c == OtherLabel || c == UnknownLabel)
  }

  /** A row with a name normalises to a well-formed row whose status is the
      stripped status cell, or "Unknown" when that is blank. */
  lemma NormaliseWellFormed(r: RawRow)
    requires HasName(r)
    ensures WellFormed(Normalise(r))
    ensures Normalise(r).status == (if AllSpace(r.status) then UnknownStatus else Strip(r.status))
  {
  }

  /** `load_data`: no file gives the empty table; otherwise the rows with a
      name, each normalised, in file order. */
  function Load(source: Option<seq<RawRow>>): (df: seq<Org>)
    ensures source.None? ==> df == []
    ensures source.Some? ==> |df| <= |source.value|
  {
    match source
    case None => []
    case Some(rows) => Map(Filter(rows, HasName), Normalise)
  }

  /** Every loaded row is well formed. */
  lemma LoadWellFormed(source: Option<seq<RawRow>>, o: Org)
    requires o in Load(source)
    ensures WellFormed(o)
  {
    var kept := Filter(source.value, HasName);
    var df := Map(kept, Normalise);
    var i :| 0 <= i < |df| && df[i] == o;
    assert kept[i] in kept;
    NormaliseWellFormed(kept[i]);
  }

  /** A row is in the loaded table iff it is the normalisation of a source
      row with a name. */
  lemma LoadMembership(rows: seq<RawRow>, o: Org)
    ensures o in Load(Some(rows)) <==> exists r :: r in rows && HasName(r) && o == Normalise(r)
  {
    var kept := Filter(rows, HasName);
    MapMembership(kept, Normalise, o);
  }

  /** Rows are normalised independently and stay in file order: loading two
      halves of a file and concatenating gives the load of the whole. */
  lemma {:induction false} LoadAppend(a: seq<RawRow>, b: seq<RawRow>)
    ensures Load(Some(a + b)) == Load(Some(a)) + Load(Some(b))
  {
    FilterAppend(a, b, HasName);
    MapAppend(Filter(a, HasName), Filter(b, HasName), Normalise);
  }

  /** Rows with a name are all kept, so loading drops only blank-name rows. */
  lemma LoadKeepsNamedRows(rows: seq<RawRow>)
    requires forall r :: r in rows ==> HasName(r)
    ensures Load(Some(rows)) == Map(rows, Normalise)
  {
    FilterAll(rows, HasName);
  }

  /** `load_data` step by step: the blank-name filter, then per row the
      derived columns and the status normalisation. */
  method LoadData(source: Option<seq<RawRow>>) returns (df: seq<Org>)
    ensures df == Load(source)
  {
    if source.None? {
      return [];
    }
    var rows := source.value;
    var kept: seq<RawRow> := [];
    for i := 0 to |rows|
      invariant kept == Filter(rows[..i], HasName)
    {
      FilterSnoc(rows, i, HasName);
      if HasName(rows[i]) {
        kept := kept + [rows[i]];
      }
    }
    assert rows[..|rows|] == rows;
    df := [];
    for j := 0 to |kept|
      invariant df == Map(kept[..j], Normalise)
    {
      var r := kept[j];
      var cats := GetCategories(r.serviceArea);
      var o := Org(r.name, r.address, r.city, r.state, r.zip, r.url, NormaliseStatus(r.status),
                   r.orgType, r.population, r.serviceArea, r.latitude, r.longitude,
                   SmartSplit(r.serviceArea), SmartSplit(r.population), cats);
      MapSnoc(kept, j, Normalise);
      df := df + [o];
    }
    assert kept[..|kept|] == kept;
  }
}
