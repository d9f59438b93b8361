/**
 * The category classifier: the static table that maps raw service-area tags
 * to seven broad categories, and `_get_categories`, which turns a
 * service-area string into a sorted, duplicate-free list of category labels
 * with the fallbacks "Other" and "Unknown".
 */
module Classifier {
  import opened Strings
  import opened Sorting
  import opened TagSplit

  /** One row of the category table: a label and the tags that select it. */
  datatype Entry = Entry(name: string, keywords: seq<string>)

  /** CATEGORY_MAP, in its insertion order (Python dicts keep it). */
  const CategoryMap: seq<Entry> := [
    Entry("Education", [
      "Education",
      "Adult education",
      "Literacy",
      "College prep",
      "Higher Education",
      "After school/Out of school",
      "Early childhood development",
      "Applied Behavior Analysis (ABA) Services for Children with Autism"]),
    Entry("Youth Development", [
      "Youth Development",
      "After school/Out of school",
      "Child Welfare/Protection Systems & Services",
      "Mentoring"]),
    Entry("Economic Mobility", [
      "Economic Mobility/Workforce Development",
      "Economic Development (Community-level)",
      "Financial Literacy",
      "Capacity Building Services"]),
    Entry("Family & Basic Needs", [
      "Family Services",
      "Anti-Poverty Programs",
      "Social Services",
      "Food Insecurity",
      "Food pantry",
      "Housing Insecurity/Homelessness",
      "Homelessness",
      "Intimate Partner/Domestic Violence",
      "Other: Basic Needs",
      "Other: Clothing/Personal Growth"]),
    Entry("Health & Wellness", [
      "Health/Medical",
      "Mental Health",
      "Public Health",
      "Substance Use Disorders",
      "Disabillities",
      "Disabilities",
      "Aging",
      "Other: Adult Daycare"]),
    Entry("Justice, Legal & Immigration", [
      "Legal Services",
      "Legal services",
      "Criminal Justice",
      "Immigration"]),
    Entry("Community & Civic Life", [
      "Athletics",
      "Faith-based Services",
      "Arts and Culture",
      "Climate Change & Environmental Justice",
      "Other: Equine Assisted Programs"])
  ]

  /** Fallback label for a string with tags that no keyword matched. */
  const OtherLabel: string := "Other"
  /** Fallback label for a string without any tag. */
  const UnknownLabel: string := "Unknown"

  /** c is the label of some entry of the table. */
  ghost predicate IsLabelOf(table: seq<Entry>, c: string) {
    exists j :: 0 <= j < |table| && table[j].name == c
  }

  /** The labels of CATEGORY_MAP. */
  ghost predicate IsCategory(c: string) {
    IsLabelOf(CategoryMap, c)
  }

  /** Neither fallback label is a label of the table. */
  lemma FallbacksAreNotCategories()
    ensures !IsCategory(OtherLabel) && !IsCategory(UnknownLabel)
  {
    forall j | 0 <= j < |CategoryMap|
      ensures CategoryMap[j].name != OtherLabel && CategoryMap[j].name != UnknownLabel
    {
      assert CategoryMap[j].name[0] != 'O' && CategoryMap[j].name[0] != 'U';
    }
  }

  /** `kw.lower() in svc.lower() or svc.lower() in kw.lower()` */
  predicate KeywordMatches(tok: string, kw: string) {
    Contains(Lower(tok), Lower(kw)) || Contains(Lower(kw), Lower(tok))
  }

  /** One of the first n keywords matches the token. */
  predicate TokenHitsUpTo(tok: string, kws: seq<string>, n: nat)
    requires n <= |kws|
  {
    exists k :: 0 <= k < n && KeywordMatches(tok, kws[k])
  }

  /** Some keyword of the list matches the token. */
  predicate TokenHits(tok: string, kws: seq<string>) {
    TokenHitsUpTo(tok, kws, |kws|)
  }

  /** One of the first n tokens is matched by some keyword. */
  predicate EntryHitUpTo(toks: seq<string>, kws: seq<string>, n: nat)
    requires n <= |toks|
  {
    exists i :: 0 <= i < n && TokenHits(toks[i], kws)
  }

  /** A category is selected by a list of tokens. */
  predicate EntryHit(toks: seq<string>, e: Entry) {
    EntryHitUpTo(toks, e.keywords, |toks|)
  }

  /** The labels of the table entries the tokens select, in table order. */
  function Matched(toks: seq<string>, table: seq<Entry>): (names: seq<string>)
    ensures forall x :: x in names <==>
      exists j :: 0 <= j < |table| && table[j].name == x && EntryHit(toks, table[j])
  {
    if table == [] then []
    else
      var init, last := table[..|table| - 1], table[|table| - 1];
      var r := Matched(toks, init) + (if EntryHit(toks, last) then [last.name] else []);
      assert forall j :: 0 <= j < |init| ==> table[j] == init[j];
      r
  }

  /** No tokens select nothing. */
  lemma {:induction false} NoTokensNoMatch(table: seq<Entry>)
    ensures Matched([], table) == []
    decreases |table|
  {
    if table != [] {
      NoTokensNoMatch(table[..|table| - 1]);
    }
  }

  lemma HeadIsMember(names: seq<string>)
    requires names != []
    ensures names[0] in names
  {
  }

  /** Some entry of the table is selected by the tokens. */
  ghost predicate AnyHit(table: seq<Entry>, toks: seq<string>) {
    exists j :: 0 <= j < |table| && EntryHit(toks, table[j])
  }

  /** The tokens select no label exactly when no entry is selected. */
  lemma MatchedEmptyIff(table: seq<Entry>, toks: seq<string>)
    ensures Matched(toks, table) == [] <==> !AnyHit(table, toks)
  {
    var names := Matched(toks, table);
    if AnyHit(table, toks) {
      var j :| 0 <= j < |table| && EntryHit(toks, table[j]);
      assert table[j].name in names;
    }
    if names != [] {
      assert names[0] in names;
    }
  }

  /** When some entry is selected, the sorted selected labels are labels of
      the table, hence neither fallback. */
  lemma SelectedLabels(table: seq<Entry>, toks: seq<string>)
    requires !IsLabelOf(table, OtherLabel) && !IsLabelOf(table, UnknownLabel)
    requires Matched(toks, table) != []
    ensures var r := SortedDistinct(Matched(toks, table));
      && r != [] && OtherLabel !in r && UnknownLabel !in r
      && forall c :: c in r ==> IsLabelOf(table, c)
  {
    var names := Matched(toks, table);
    var r := SortedDistinct(names);
    assert names[0] in names;
    assert r[0] in names;
  }

  /** The classification of a token list against a table whose labels are
      not the fallbacks: the sorted distinct labels the tokens select;
      ["Other"] when there are tokens but none is selected; ["Unknown"] when
      there are no tokens. */
  function Classify(table: seq<Entry>, toks: seq<string>): (cats: seq<string>)
    requires !IsLabelOf(table, OtherLabel) && !IsLabelOf(table, UnknownLabel)
    ensures cats != []
    ensures StrictlySorted(cats)
    ensures cats == [UnknownLabel] <==> toks == []
    ensures cats == [OtherLabel] <==> toks != [] && !AnyHit(table, toks)
    ensures AnyHit(table, toks) ==> forall c :: c in cats <==>
      exists j :: 0 <= j < |table| && table[j].name == c && EntryHit(toks, table[j])
    ensures forall c :: c in cats ==> IsLabelOf(table, c) || c == OtherLabel || c == UnknownLabel
  {
    var names := Matched(toks, table);
    NoTokensNoMatch(table);
    MatchedEmptyIff(table, toks);
    if names == [] then
      (if toks != [] then [OtherLabel] else [UnknownLabel])
    else
      SelectedLabels(table, toks);
      SortedDistinct(names)
  }

  /** `_get_categories` as a value: Classify applied to the tags of svc and
      CATEGORY_MAP. */
  function Categories(svc: string): (cats: seq<string>)
    ensures cats != []
    ensures StrictlySorted(cats)
    ensures cats == [UnknownLabel] <==> SmartSplit(svc) == []
    ensures cats == [OtherLabel] <==> SmartSplit(svc) != [] && !AnyHit(CategoryMap, SmartSplit(svc))
    ensures AnyHit(CategoryMap, SmartSplit(svc)) ==> forall c :: c in cats <==>
      exists j :: 0 <= j < |CategoryMap| && CategoryMap[j].name == c && EntryHit(SmartSplit(svc), CategoryMap[j])
    ensures forall c :: c in cats ==> IsCategory(c) || c == OtherLabel || c == UnknownLabel
  {
    FallbacksAreNotCategories();
    Classify(CategoryMap, SmartSplit(svc))
  }

  /** Every label Categories returns, other than a fallback, is a table label. */
  lemma CategoriesAreLabels(svc: string)
    requires Categories(svc) != [OtherLabel] && Categories(svc) != [UnknownLabel]
    ensures forall c :: c in Categories(svc) ==> IsCategory(c)
  {
    FallbacksAreNotCategories();
    var toks := SmartSplit(svc);
    assert toks != [] && AnyHit(CategoryMap, toks);
  }

  /** The loops of `_get_categories` over a table: accumulate the selected
      labels in a set (category, token, keyword) and return them sorted, or a
      fallback when the set stays empty. */
  method ClassifyTokens(table: seq<Entry>, svcs: seq<string>) returns (cats: seq<string>)
    requires !IsLabelOf(table, OtherLabel) && !IsLabelOf(table, UnknownLabel)
    ensures cats == Classify(table, svcs)
  {
    var matched: set<string> := {};
    for c := 0 to |table|
      invariant forall x :: x in matched <==> x in Matched(svcs, table[..c])
    {
      var name, kws := table[c].name, table[c].keywords;
      ghost var before := matched;
      for s := 0 to |svcs|
        invariant matched == before + (if EntryHitUpTo(svcs, kws, s) then {name} else {})
      {
        for k := 0 to |kws|
          invariant matched == before +
            (if EntryHitUpTo(svcs, kws, s) || TokenHitsUpTo(svcs[s], kws, k) then {name} else {})
        {
          if KeywordMatches(svcs[s], kws[k]) {
            matched := matched + {name};
          }
        }
      }
      assert table[..c + 1][..c] == table[..c];
      assert table[..c + 1][c] == table[c];
    }
    assert table[..|table|] == table;
    var names := Matched(svcs, table);
    if matched == {} {
      cats := if svcs != [] then [OtherLabel] else [UnknownLabel];
      if names != [] {
        HeadIsMember(names);
        assert false;
      }
    } else {
      cats := SortSet(matched);
      var x :| x in matched;
      assert x in names;
      SortedUnique(cats, SortedDistinct(names));
    }
  }

  /** `_get_categories`: splits the service-area string into tags and runs the
      loops over CATEGORY_MAP. */
  method GetCategories(svc: string) returns (cats: seq<string>)
    ensures cats == Categories(svc)
  {
    var svcs := SmartSplit(svc);
    FallbacksAreNotCategories();
    cats := ClassifyTokens(CategoryMap, svcs);
  }

  /** A tag that is itself a keyword selects that keyword's category. */
  lemma KeywordSelectsItsCategory(table: seq<Entry>, toks: seq<string>, j: nat, k: nat)
    requires !IsLabelOf(table, OtherLabel) && !IsLabelOf(table, UnknownLabel)
    requires j < |table| && k < |table[j].keywords|
    requires table[j].keywords[k] in toks
    ensures table[j].name in Classify(table, toks)
  {
    var kw := table[j].keywords[k];
    var i :| 0 <= i < |toks| && toks[i] == kw;
    ContainsSelf(Lower(kw));
    assert KeywordMatches(toks[i], kw);
    assert TokenHits(toks[i], table[j].keywords);
    assert EntryHit(toks, table[j]);
    assert AnyHit(table, toks);
  }

  const AfterSchool: string := "After school/Out of school"

  /** The shared keyword is listed under Education and Youth Development. */
  lemma AfterSchoolListedTwice()
    ensures |CategoryMap| == 7 && |CategoryMap[0].keywords| == 8 && |CategoryMap[1].keywords| == 4
    ensures CategoryMap[0].keywords[5] == AfterSchool && CategoryMap[0].name == "Education"
    ensures CategoryMap[1].keywords[1] == AfterSchool && CategoryMap[1].name == "Youth Development"
  {
  }

  /** The shared keyword is a tag on its own. */
  lemma AfterSchoolIsOneTag()
    ensures SmartSplit(AfterSchool) == [AfterSchool]
  {
    assert ',' !in AfterSchool;
    assert IsStripped(AfterSchool);
    SingleTag(AfterSchool);
  }

  /** "After school/Out of school" is listed under two categories, so a
      service-area string with that tag gets both labels. */
  lemma SharedKeywordSelectsBoth(svc: string)
    requires AfterSchool in SmartSplit(svc)
    ensures "Education" in Categories(svc) && "Youth Development" in Categories(svc)
  {
    var toks := SmartSplit(svc);
    FallbacksAreNotCategories();
    AfterSchoolListedTwice();
    KeywordSelectsItsCategory(CategoryMap, toks, 0, 5);
    KeywordSelectsItsCategory(CategoryMap, toks, 1, 1);
  }

  /** A stripped, non-empty string without commas is a single tag. */
  lemma SingleTag(s: string)
    requires s != [] && IsStripped(s) && ',' !in s
    ensures SmartSplit(s) == [s]
  {
    NoCommaNoSplit(s, 0, |s|);
    assert s[0..|s|] == s;
    PiecesNoCut(s);
    assert Pieces(s)[1..] == [];
  }

  /** The empty string and a blank string have no tags. */
  lemma BlankIsUnknown(svc: string)
    requires AllSpace(svc)
    ensures Categories(svc) == [UnknownLabel]
  {
    BlankHasNoTokens(svc);
  }
}
