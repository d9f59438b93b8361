/**
 * The tag splitter `_smart_split`: a comma-separated field is cut at every
 * comma matched by the pattern `,(?![^(]*\))`, each piece is stripped, and
 * pieces that are blank after stripping are dropped.
 */
module TagSplit {
  import opened Strings
  import opened Seqs

  /** The first parenthesis character of t, if any, is ')'. */
  predicate CloseParenFirst(t: string)
    decreases |t|
  {
    t != [] && t[0] != '(' && (t[0] == ')' || CloseParenFirst(t[1..]))
  }

  /** The lookahead body `[^(]*\)` read literally: it matches at the start of t
      when some ')' of t has no '(' anywhere before it. */
  ghost predicate LookaheadMatches(t: string) {
    exists k :: 0 <= k < |t| && t[k] == ')' && '(' !in t[..k]
  }

  /** The regular-expression reading and the "first parenthesis" reading agree:
      a comma escapes splitting exactly when the first '(' or ')' after it is ')'. */
  lemma {:induction false} CloseParenFirstIsLookahead(t: string)
    ensures CloseParenFirst(t) <==> LookaheadMatches(t)
    decreases |t|
  {
    if t == [] {
    } else if t[0] == ')' {
      assert t[..0] == [];
    } else if t[0] == '(' {
    } else {
      CloseParenFirstIsLookahead(t[1..]);
      if LookaheadMatches(t) {
        var k :| 0 <= k < |t| && t[k] == ')' && '(' !in t[..k];
        assert k > 0;
        assert t[..k] == [t[0]] + t[1..][..k - 1];
        assert t[1..][k - 1] == ')';
      }
      if LookaheadMatches(t[1..]) {
        var k :| 0 <= k < |t[1..]| && t[1..][k] == ')' && '(' !in t[1..][..k];
        assert t[..k + 1] == [t[0]] + t[1..][..k];
        assert t[k + 1] == ')';
      }
    }
  }

  /** Position i of s is a comma at which `,(?![^(]*\))` matches. */
  predicate IsSplitComma(s: string, i: nat)
    requires i < |s|
  {
    s[i] == ',' && !CloseParenFirst(s[i + 1..])
  }

  /** Whether a position splits depends only on the text from that position on. */
  lemma SplitCommaShift(s: string, k: nat, j: nat)
    requires k + j < |s|
    ensures IsSplitComma(s[k..], j) == IsSplitComma(s, k + j)
  {
    assert s[k..][j + 1..] == s[k + j + 1..];
  }

  /** The leftmost split comma at or after i, or |s| when there is none. */
  function FirstSplit(s: string, i: nat): (j: nat)
    requires i <= |s|
    ensures i <= j <= |s|
    ensures j < |s| ==> IsSplitComma(s, j)
    ensures forall k :: i <= k < j ==> !IsSplitComma(s, k)
    decreases |s| - i
  {
    if i == |s| || IsSplitComma(s, i) then i else FirstSplit(s, i + 1)
  }

  /** re.split(r",(?![^(]*\))", s): the text between consecutive split commas. */
  function Pieces(s: string): (ps: seq<string>)
    ensures ps != []
    decreases |s|
  {
    var i := FirstSplit(s, 0);
    if i == |s| then [s] else [s[..i]] + Pieces(s[i + 1..])
  }

  /** re.split cuts first at the leftmost split comma. */
  lemma PiecesFirstCut(s: string, i: nat)
    requires i < |s| && IsSplitComma(s, i)
    requires forall k :: 0 <= k < i ==> !IsSplitComma(s, k)
    ensures Pieces(s) == [s[..i]] + Pieces(s[i + 1..])
  {
    var f := FirstSplit(s, 0);
    assert f == i;
  }

  /** Without a split comma the whole text is the one piece. */
  lemma PiecesNoCut(s: string)
    requires forall k :: 0 <= k < |s| ==> !IsSplitComma(s, k)
    ensures Pieces(s) == [s]
  {
    var f := FirstSplit(s, 0);
    assert f == |s|;
  }

  lemma NoCommaNoSplit(s: string, i: nat, j: nat)
    requires i <= j <= |s| && ',' !in s[i..j]
    ensures forall k :: i <= k < j ==> !IsSplitComma(s, k)
  {
    forall k | i <= k < j ensures !IsSplitComma(s, k) {
      assert s[k] == s[i..j][k - i];
    }
  }

  /** Without a ')' to its right, a comma always splits. */
  lemma {:induction false} NoCloseNoProtection(t: string)
    requires ')' !in t
    ensures !CloseParenFirst(t)
    decreases |t|
  {
    if t != [] {
      assert t[0] in t;
      assert ')' !in t[1..] by { assert forall c :: c in t[1..] ==> c in t; }
      NoCloseNoProtection(t[1..]);
    }
  }

  /** A ')' reached before any '(' protects the comma. */
  lemma CloseProtects(t: string, k: nat)
    requires k < |t| && t[k] == ')' && '(' !in t[..k]
    ensures CloseParenFirst(t)
  {
    CloseParenFirstIsLookahead(t);
  }

  /** Rejoining the pieces with commas gives back the input. */
  lemma {:induction false} PiecesJoin(s: string)
    ensures Join(Pieces(s), ",") == s
    decreases |s|
  {
    var i := FirstSplit(s, 0);
    if i < |s| {
      var t := s[i + 1..];
      PiecesJoin(t);
      var rest := Pieces(t);
      assert Pieces(s) == [s[..i]] + rest;
      assert Join([s[..i]] + rest, ",") == s[..i] + "," + Join(rest, ",");
      assert s == s[..i] + "," + s[i + 1..];
    }
  }

  /** Where the k-th piece starts in s when pieces are separated by one comma. */
  function Offset(ps: seq<string>, k: nat): nat
    requires k <= |ps|
  {
    if k == 0 then 0 else Offset(ps, k - 1) + |ps[k - 1]| + 1
  }

  lemma {:induction false} OffsetCons(p: string, ps: seq<string>, k: nat)
    requires 1 <= k <= |ps| + 1
    ensures Offset([p] + ps, k) == |p| + 1 + Offset(ps, k - 1)
    decreases k
  {
    if k > 1 {
      OffsetCons(p, ps, k - 1);
      assert ([p] + ps)[k - 1] == ps[k - 2];
    }
  }

  /** The k-th piece is the block of s at Offset(ps, k); no split comma lies
      inside it; it is followed by a split comma, or by the end of s when it
      is the last piece. */
  ghost predicate PieceAt(s: string, ps: seq<string>, k: nat)
    requires k < |ps|
  {
    var o := Offset(ps, k);
    var e := o + |ps[k]|;
    && e <= |s|
    && s[o..e] == ps[k]
    && (forall j :: o <= j < e ==> !IsSplitComma(s, j))
    && (if k + 1 < |ps| then e < |s| && IsSplitComma(s, e) else e == |s|)
  }

  /** A piece of the text after the first split comma, shifted past that
      comma, is a piece of the whole text. */
  lemma PieceAtShift(s: string, i: nat, rest: seq<string>, k: nat)
    requires i < |s| && 1 <= k <= |rest|
    requires PieceAt(s[i + 1..], rest, k - 1)
    ensures PieceAt(s, [s[..i]] + rest, k)
  {
    var ps := [s[..i]] + rest;
    OffsetCons(s[..i], rest, k);
    var o' := Offset(rest, k - 1);
    var e' := o' + |rest[k - 1]|;
    var o := i + 1 + o';
    assert ps[k] == rest[k - 1];
    assert s[i + 1..][o'..e'] == s[i + 1 + o'..i + 1 + e'];
    forall j | o <= j < o + |ps[k]| ensures !IsSplitComma(s, j) {
      SplitCommaShift(s, i + 1, j - (i + 1));
    }
    if k + 1 < |ps| {
      SplitCommaShift(s, i + 1, e');
    }
  }

  /** The first piece runs from the start to the first split comma. */
  lemma PieceAtFirst(s: string)
    ensures PieceAt(s, Pieces(s), 0)
  {
    var i := FirstSplit(s, 0);
    var ps := Pieces(s);
    assert Offset(ps, 0) == 0;
    if i == |s| {
      assert ps == [s] && s[0..|s|] == s;
    } else {
      var rest := Pieces(s[i + 1..]);
      assert ps == [s[..i]] + rest;
      assert ps[0] == s[..i] && s[0..i] == s[..i] && 1 < |ps|;
    }
  }

  /** The pieces are cut exactly at the split commas and nowhere else. */
  lemma {:induction false} PiecesExact(s: string, k: nat)
    requires k < |Pieces(s)|
    ensures PieceAt(s, Pieces(s), k)
    decreases |s|
  {
    if k == 0 {
      PieceAtFirst(s);
    } else {
      var i := FirstSplit(s, 0);
      var rest := Pieces(s[i + 1..]);
      assert Pieces(s) == [s[..i]] + rest;
      PiecesExact(s[i + 1..], k - 1);
      PieceAtShift(s, i, rest, k);
    }
  }

  /** A stripped piece is kept when it is not empty. */
  predicate NonBlank(t: string) {
    t != []
  }

  /** [p.strip() for p in ps if p.strip()] */
  function Clean(ps: seq<string>): (ts: seq<string>)
    ensures |ts| <= |ps|
    ensures forall t :: t in ts ==> t != [] && IsStripped(t)
    ensures forall t :: t in ts ==> exists p :: p in ps && t == Strip(p)
    ensures forall p :: p in ps && Strip(p) != [] ==> Strip(p) in ts
  {
    var stripped := Map(ps, Strip);
    forall t ensures t in stripped <==> exists p :: p in ps && t == Strip(p) {
      MapMembership(ps, Strip, t);
    }
    Filter(stripped, NonBlank)
  }

  /** One piece gives its strip, or nothing when that is empty. */
  lemma CleanSingle(p: string)
    ensures Clean([p]) == if Strip(p) != [] then [Strip(p)] else []
  {
    var m := Map([p], Strip);
    assert m == [Strip(p)];
    assert m[1..] == [];
  }

  /** Cleaning keeps the order of the pieces: the tokens of a concatenation
      are the tokens of the first part followed by those of the second. */
  lemma CleanAppend(a: seq<string>, b: seq<string>)
    ensures Clean(a + b) == Clean(a) + Clean(b)
  {
    MapAppend(a, b, Strip);
    FilterAppend(Map(a, Strip), Map(b, Strip), NonBlank);
  }

  /** `_smart_split`: stripped, non-empty tokens, in input order, duplicates kept. */
  function SmartSplit(s: string): (tokens: seq<string>)
    ensures s == [] ==> tokens == []
    ensures |tokens| <= |Pieces(s)|
    ensures forall t :: t in tokens ==> t != [] && IsStripped(t)
    ensures forall t :: t in tokens ==> exists p :: p in Pieces(s) && t == Strip(p)
    ensures forall p :: p in Pieces(s) && Strip(p) != [] ==> Strip(p) in tokens
  {
    if s == [] then
      assert Pieces(s) == [s];
      []
    else Clean(Pieces(s))
  }

  /** The tokens of a text are those of the text before its first split
      comma followed by those of the text after it, so tokens keep the order
      of the pieces they come from. */
  lemma SmartSplitFirstCut(s: string, i: nat)
    requires i < |s| && IsSplitComma(s, i)
    requires forall k :: 0 <= k < i ==> !IsSplitComma(s, k)
    ensures SmartSplit(s) == Clean([s[..i]]) + SmartSplit(s[i + 1..])
  {
    PiecesFirstCut(s, i);
    var t := s[i + 1..];
    CleanAppend([s[..i]], Pieces(t));
    if t == [] {
      assert Pieces(t) == [t];
      assert Clean([t]) == [];
    }
  }

  lemma CleanBlank(ps: seq<string>)
    requires forall p :: p in ps ==> AllSpace(p)
    ensures Clean(ps) == []
  {
    var m := Map(ps, Strip);
    forall t | t in m ensures !NonBlank(t) {
      MapMembership(ps, Strip, t);
    }
    FilterNone(m, NonBlank);
  }

  /** A blank field (empty or only whitespace) yields no tokens. */
  lemma BlankHasNoTokens(s: string)
    requires AllSpace(s)
    ensures SmartSplit(s) == []
  {
    if s != [] {
      var ps := Pieces(s);
      forall p | p in ps ensures AllSpace(p) {
        var k :| 0 <= k < |ps| && ps[k] == p;
        PiecesExact(s, k);
        var o := Offset(ps, k);
        assert p == s[o..o + |p|];
      }
      CleanBlank(ps);
    }
  }

  /** s.split(","): the text between consecutive commas. */
  function CommaSplit(s: string): (ps: seq<string>)
    ensures ps != []
    decreases |s|
  {
    if s == [] then [[]]
    else
      var rest := CommaSplit(s[1..]);
      if s[0] == ',' then [[]] + rest else [[s[0]] + rest[0]] + rest[1..]
  }

  lemma {:induction false} CommaSplitNone(s: string)
    requires ',' !in s
    ensures CommaSplit(s) == [s]
    decreases |s|
  {
    if s != [] {
      assert s[0] in s;
      assert ',' !in s[1..] by { assert forall c :: c in s[1..] ==> c in s; }
      CommaSplitNone(s[1..]);
      assert s == [s[0]] + s[1..];
    }
  }

  lemma {:induction false} CommaSplitAt(s: string, i: nat)
    requires i < |s| && s[i] == ',' && ',' !in s[..i]
    ensures CommaSplit(s) == [s[..i]] + CommaSplit(s[i + 1..])
    decreases i
  {
    if i > 0 {
      assert s[0] == s[..i][0];
      assert s[1..][..i - 1] == s[1..i];
      assert ',' !in s[1..][..i - 1] by {
        assert forall c :: c in s[1..i] ==> c in s[..i];
      }
      CommaSplitAt(s[1..], i - 1);
      assert s[1..][i..] == s[i + 1..];
      assert [s[0]] + s[1..i] == s[..i];
    }
  }

  ghost predicate NoParens(s: string) {
    '(' !in s && ')' !in s
  }

  lemma {:induction false} NoParensNeverClose(t: string)
    requires NoParens(t)
    ensures !CloseParenFirst(t)
    decreases |t|
  {
    if t != [] {
      assert t[0] in t;
      assert NoParens(t[1..]) by { assert forall c :: c in t[1..] ==> c in t; }
      NoParensNeverClose(t[1..]);
    }
  }

  lemma {:induction false} NoParensPieces(s: string)
    requires NoParens(s)
    ensures Pieces(s) == CommaSplit(s)
    decreases |s|
  {
    var i := FirstSplit(s, 0);
    forall k | 0 <= k < |s| ensures IsSplitComma(s, k) <==> s[k] == ',' {
      assert NoParens(s[k + 1..]) by { assert forall c :: c in s[k + 1..] ==> c in s; }
      NoParensNeverClose(s[k + 1..]);
    }
    if i == |s| {
      assert ',' !in s;
      CommaSplitNone(s);
    } else {
      assert ',' !in s[..i];
      CommaSplitAt(s, i);
      assert NoParens(s[i + 1..]) by { assert forall c :: c in s[i + 1..] ==> c in s; }
      NoParensPieces(s[i + 1..]);
    }
  }

  /** Without parentheses the splitter is a plain comma split, stripped, with
      blank pieces dropped, in the original order and keeping duplicates. */
  lemma NoParensIsCommaSplit(s: string)
    requires NoParens(s)
    ensures SmartSplit(s) == Clean(CommaSplit(s))
  {
    NoParensPieces(s);
  }

  /** The commas of "Health (Adult, Child)" are not split points: the one
      inside the group is followed by ')' before any '('. */
  lemma ParenthesisedCommaKept(s: string)
    requires s == "Health (Adult, Child), Legal"
    ensures forall k :: 0 <= k < 21 ==> !IsSplitComma(s, k)
  {
    assert s[..13] == "Health (Adult" && s[14..21] == " Child)";
    NoCommaNoSplit(s, 0, 13);
    NoCommaNoSplit(s, 14, 21);
    assert s[14..][..6] == " Child" && s[14..][6] == ')';
    CloseProtects(s[14..], 6);
  }

  lemma LegalIsOnePiece(t: string)
    requires t == " Legal"
    ensures !CloseParenFirst(t) && Pieces(t) == [t]
  {
    NoCloseNoProtection(t);
    NoCommaNoSplit(t, 0, 6);
    assert t[0..6] == t;
    PiecesNoCut(t);
  }

  lemma ParenthesisedCommaPieces(s: string)
    requires s == "Health (Adult, Child), Legal"
    ensures Pieces(s) == [s[..21], s[22..]]
    ensures s[..21] == "Health (Adult, Child)" && s[22..] == " Legal"
  {
    ParenthesisedCommaKept(s);
    var t := s[22..];
    assert t == " Legal";
    LegalIsOnePiece(t);
    assert IsSplitComma(s, 21);
    PiecesFirstCut(s, 21);
  }

  lemma PairIsConcat(a: string, b: string)
    ensures [a, b] == [a] + [b]
  {
  }

  lemma CleanTwo(x: string, y: string)
    requires IsStripped(x) && x != []
    requires Strip(y) != []
    ensures Clean([x, y]) == [x, Strip(y)]
  {
    PairIsConcat(x, y);
    CleanAppend([x], [y]);
    CleanOne(x);
    CleanSingle(y);
    PairIsConcat(x, Strip(y));
  }

  lemma StripLegal(y: string)
    requires y == " Legal"
    ensures Strip(y) == y[1..] && y[1..] == "Legal"
  {
    assert SkipSpace(y, 0) == 1;
    assert SkipSpaceBack(y, 1, 6) == 6;
  }

  /** The tokens of the example text. */
  lemma ParenthesisedCommaTokens(s: string)
    requires s == "Health (Adult, Child), Legal"
    ensures SmartSplit(s) == ["Health (Adult, Child)", "Legal"]
  {
    ParenthesisedCommaPieces(s);
    var x, y := s[..21], s[22..];
    StripLegal(y);
    assert x[0] == 'H' && x[20] == ')';
    CleanTwo(x, y);
  }

  /** A comma inside a parenthesised group is not a split point. */
  lemma ParenthesisedCommaExample()
    ensures SmartSplit("Health (Adult, Child), Legal") == ["Health (Adult, Child)", "Legal"]
  {
    ParenthesisedCommaTokens("Health (Adult, Child), Legal");
  }

  /** In "Arts, Aging)" the only comma is followed by a ')' with no '('
      before it, so the text is one piece, already stripped. */
  lemma StrayCloseOnePiece(s: string)
    requires s == "Arts, Aging)"
    ensures Pieces(s) == [s] && IsStripped(s) && s != []
  {
    assert s[..4] == "Arts" && s[5..] == " Aging)";
    NoCommaNoSplit(s, 0, 4);
    NoCommaNoSplit(s, 5, 12);
    assert s[5..][..6] == " Aging" && s[5..][6] == ')';
    CloseProtects(s[5..], 6);
    PiecesNoCut(s);
  }

  lemma CleanOne(x: string)
    requires IsStripped(x) && x != []
    ensures Clean([x]) == [x]
  {
    CleanSingle(x);
  }

  /** A stray ')' later in the text suppresses the split at an earlier comma. */
  lemma StrayCloseExample()
    ensures SmartSplit("Arts, Aging)") == ["Arts, Aging)"]
  {
    var s := "Arts, Aging)";
    StrayCloseOnePiece(s);
    CleanOne(s);
  }
}
