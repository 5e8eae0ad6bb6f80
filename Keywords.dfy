/**
 * Keyword handling of the template screen: the fallback keyword (getInitialUserKeyword) and the
 * normalisation of a comma-separated keyword string inside fetchTemplates (split on ",", trim,
 * lower-case, order-preserving de-duplication through a `Set`).
 */
module Keywords {
  import opened Seqs

  // ---------------------------------------------------------------- String.prototype.split(',')

  /** `s` cut at every `sep`; like JavaScript's `split`, it always yields at least one (possibly empty) piece. */
  function Split(s: string, sep: char): (r: seq<string>)
    ensures |r| >= 1
  {
    if s == [] then [""]
    else
      var rest := Split(s[1..], sep);
      if s[0] == sep then [""] + rest else [[s[0]] + rest[0]] + rest[1..]
  }

  /** The pieces glued back together with `sep` between neighbours. */
  function Join(pieces: seq<string>, sep: char): string
    requires |pieces| >= 1
  {
    if |pieces| == 1 then pieces[0] else pieces[0] + [sep] + Join(pieces[1..], sep)
  }

  /** Splitting loses nothing: joining the pieces gives the input back, and no piece contains the separator. */
  lemma {:induction false} JoinSplit(s: string, sep: char)
    ensures Join(Split(s, sep), sep) == s
    ensures forall p :: p in Split(s, sep) ==> sep !in p
  {
    if s != [] {
      var rest := Split(s[1..], sep);
      JoinSplit(s[1..], sep);
      if s[0] == sep {
        assert Split(s, sep)[1..] == rest;
      } else {
        var r := Split(s, sep);
        assert r[0] == [s[0]] + rest[0];
        assert r[1..] == rest[1..];
        if |rest| > 1 {
          assert rest == [rest[0]] + rest[1..];
        }
        assert rest[0] in rest;
      }
    }
  }

  /** The other direction: pieces free of the separator come back from splitting their join. */
  lemma {:induction false} SplitJoin(pieces: seq<string>, sep: char)
    requires |pieces| >= 1
    requires forall p :: p in pieces ==> sep !in p
    ensures Split(Join(pieces, sep), sep) == pieces
  {
    if |pieces| == 1 {
      SplitPiece(pieces[0], sep);
    } else {
      SplitJoin(pieces[1..], sep);
      SplitPrefix(pieces[0], Join(pieces[1..], sep), sep);
      assert pieces == [pieces[0]] + pieces[1..];
    }
  }

  /** A string without the separator is a single piece. */
  lemma {:induction false} SplitPiece(p: string, sep: char)
    requires sep !in p
    ensures Split(p, sep) == [p]
  {
    if p != [] {
      SplitPiece(p[1..], sep);
      assert [p[0]] + p[1..] == p;
    }
  }

  /** Splitting `p + sep + t` for a separator-free `p` yields `p` followed by the pieces of `t`. */
  lemma {:induction false} SplitPrefix(p: string, t: string, sep: char)
    requires sep !in p
    ensures Split(p + [sep] + t, sep) == [p] + Split(t, sep)
  {
    if p == [] {
      assert p + [sep] + t == [sep] + t;
      assert ([sep] + t)[1..] == t;
    } else {
      SplitPrefix(p[1..], t, sep);
      assert (p + [sep] + t)[1..] == p[1..] + [sep] + t;
      assert [p[0]] + p[1..] == p;
    }
  }

  // ---------------------------------------------------------------- String.prototype.trim()

  /** ECMAScript WhiteSpace and LineTerminator code points: what `trim` removes. */
  predicate IsWhitespace(c: char) {
    || c == '\t' || c == '\n' || c == '\U{000B}' || c == '\U{000C}' || c == '\r' || c == ' '
    || c == '\U{00A0}' || c == '\U{1680}' || ('\U{2000}' <= c <= '\U{200A}')
    || c == '\U{2028}' || c == '\U{2029}' || c == '\U{202F}' || c == '\U{205F}'
    || c == '\U{3000}' || c == '\U{FEFF}'
  }

  function TrimStart(s: string): string {
    if s != [] && IsWhitespace(s[0]) then TrimStart(s[1..]) else s
  }

  function TrimEnd(s: string): string {
    if s != [] && IsWhitespace(s[|s| - 1]) then TrimEnd(s[..|s| - 1]) else s
  }

  function Trim(s: string): string {
    TrimEnd(TrimStart(s))
  }

  predicate AllWhitespace(s: string) {
    forall i :: 0 <= i < |s| ==> IsWhitespace(s[i])
  }

  /** Neither end of `s` is white space. */
  predicate Trimmed(s: string) {
    s == [] || (!IsWhitespace(s[0]) && !IsWhitespace(s[|s| - 1]))
  }

  lemma {:induction false} TrimStartSpec(s: string)
    ensures var t := TrimStart(s);
      && |t| <= |s| && t == s[|s| - |t|..]
      && AllWhitespace(s[..|s| - |t|])
      && (t == [] || !IsWhitespace(t[0]))
  {
    if s != [] && IsWhitespace(s[0]) {
      TrimStartSpec(s[1..]);
      var t := TrimStart(s);
      assert s[1..][..|s| - 1 - |t|] == s[1..|s| - |t|];
    }
  }

  lemma {:induction false} TrimEndSpec(s: string)
    ensures var t := TrimEnd(s);
      && |t| <= |s| && t == s[..|t|]
      && AllWhitespace(s[|t|..])
      && (t == [] || !IsWhitespace(t[|t| - 1]))
  {
    if s != [] && IsWhitespace(s[|s| - 1]) {
      TrimEndSpec(s[..|s| - 1]);
      var t := TrimEnd(s);
      assert s[..|s| - 1][|t|..] + [s[|s| - 1]] == s[|t|..];
    }
  }

  /**
   * `trim` cuts `s` into white-space prefix, trimmed middle and white-space suffix: the result is a
   * contiguous slice of `s`, only white space was removed, and neither end of the result is white space.
   */
  lemma TrimSpec(s: string)
    ensures exists i, j :: (0 <= i <= j <= |s| && Trim(s) == s[i..j]
      && AllWhitespace(s[..i]) && AllWhitespace(s[j..]))
    ensures Trimmed(Trim(s))
  {
    TrimStartSpec(s);
    var a := TrimStart(s);
    TrimEndSpec(a);
    var i := |s| - |a|;
    var j := i + |TrimEnd(a)|;
    assert Trim(s) == s[i..j];
    assert s[j..] == a[|TrimEnd(a)|..];
    if Trim(s) != [] {
      assert Trim(s)[0] == a[0];
    }
  }

  // ---------------------------------------------------------------- String.prototype.toLowerCase()

  predicate IsUpper(c: char) {
    'A' <= c <= 'Z'
  }

  function LowerChar(c: char): char {
    if IsUpper(c) then (c as int - 'A' as int + 'a' as int) as char else c
  }

  function ToLower(s: string): (r: string)
    ensures |r| == |s|
    ensures forall i :: 0 <= i < |s| ==> r[i] == LowerChar(s[i])
  {
    seq(|s|, i requires 0 <= i < |s| => LowerChar(s[i]))
  }

  /** No upper-case letter is left. */
  predicate NoUpper(s: string) {
    forall i :: 0 <= i < |s| ==> !IsUpper(s[i])
  }

  /** Lower-casing leaves no upper-case letter, keeps white space where it was, and is idempotent. */
  lemma ToLowerSpec(s: string)
    ensures NoUpper(ToLower(s))
    ensures forall i :: 0 <= i < |s| ==> IsWhitespace(ToLower(s)[i]) == IsWhitespace(s[i])
    ensures ToLower(ToLower(s)) == ToLower(s)
  {
  }

  // ---------------------------------------------------------------- [...new Set(list)]

  /** The distinct elements of `s` in order of first occurrence, as a JavaScript `Set` enumerates them. */
  function Dedup<T(==)>(s: seq<T>): (r: seq<T>)
    ensures forall x :: x in r ==> x in s
  {
    if s == [] then []
    else
      var r := Dedup(s[..|s| - 1]);
      if s[|s| - 1] in r then r else r + [s[|s| - 1]]
  }

  /** Index of the first occurrence of `x` in `s`. */
  function FirstIndex<T(==)>(s: seq<T>, x: T): (k: nat)
    requires x in s
    ensures k < |s| && s[k] == x && x !in s[..k]
  {
    if s[0] == x then 0 else 1 + FirstIndex(s[1..], x)
  }

  lemma FirstIndexOfPrefix<T>(s: seq<T>, n: nat, x: T)
    requires n <= |s| && x in s[..n]
    ensures FirstIndex(s, x) == FirstIndex(s[..n], x)
  {
    var k := FirstIndex(s, x);
    var m := FirstIndex(s[..n], x);
    assert s[..n][..m] == s[..m];
  }

  /**
   * De-duplication keeps exactly the elements of `s`, each once, in order of first occurrence,
   * as a subsequence of `s`.
   */
  lemma DedupSpec<T>(s: seq<T>)
    ensures Distinct(Dedup(s))
    ensures forall x :: x in Dedup(s) <==> x in s
    ensures IsSubsequence(Dedup(s), s)
    ensures forall i, j :: 0 <= i < j < |Dedup(s)| ==> FirstIndex(s, Dedup(s)[i]) < FirstIndex(s, Dedup(s)[j])
  {
    DedupMembers(s);
    DedupSubsequence(s);
    DedupOrder(s);
  }

  lemma {:induction false} DedupMembers<T>(s: seq<T>)
    ensures Distinct(Dedup(s))
    ensures forall x :: x in Dedup(s) <==> x in s
  {
    if s != [] {
      var init := s[..|s| - 1];
      DedupMembers(init);
      assert s == init + [s[|s| - 1]];
    }
  }

  lemma {:induction false} DedupSubsequence<T>(s: seq<T>)
    ensures IsSubsequence(Dedup(s), s)
  {
    if s != [] {
      var init := s[..|s| - 1];
      var last := s[|s| - 1];
      DedupSubsequence(init);
      assert s == init + [last];
      if last in Dedup(init) {
        SubsequenceOfLonger(Dedup(init), init, last);
      } else {
        SubsequenceAppend(Dedup(init), init, last);
      }
    }
  }

  lemma {:induction false} DedupOrder<T>(s: seq<T>)
    ensures forall i, j :: 0 <= i < j < |Dedup(s)| ==> FirstIndex(s, Dedup(s)[i]) < FirstIndex(s, Dedup(s)[j])
  {
    if s != [] {
      var init := s[..|s| - 1];
      var last := s[|s| - 1];
      DedupOrder(init);
      DedupMembers(init);
      assert s == init + [last];
      var r := Dedup(init);
      forall x | x in init
        ensures FirstIndex(s, x) == FirstIndex(init, x)
      {
        FirstIndexOfPrefix(s, |s| - 1, x);
      }
      if last !in r {
        var d := r + [last];
        forall i, j | 0 <= i < j < |d|
          ensures FirstIndex(s, d[i]) < FirstIndex(s, d[j])
        {
          if j == |d| - 1 {
            assert d[i] == r[i];
            assert last !in init;
          } else {
            assert d[i] == r[i] && d[j] == r[j];
          }
        }
      }
    }
  }

  lemma {:induction false} SubsequenceOfLonger<T>(a: seq<T>, b: seq<T>, x: T)
    requires IsSubsequence(a, b)
    ensures IsSubsequence(a, b + [x])
  {
    if a != [] {
      assert (b + [x])[1..] == b[1..] + [x];
      if a[0] == b[0] && IsSubsequence(a[1..], b[1..]) {
        SubsequenceOfLonger(a[1..], b[1..], x);
      } else {
        SubsequenceOfLonger(a, b[1..], x);
      }
    }
  }

  lemma {:induction false} SubsequenceAppend<T>(a: seq<T>, b: seq<T>, x: T)
    requires IsSubsequence(a, b)
    ensures IsSubsequence(a + [x], b + [x])
  {
    if a == [] {
      SubsequenceSingleton(b, x);
      assert a + [x] == [x];
    } else {
      assert (b + [x])[1..] == b[1..] + [x];
      assert (a + [x])[1..] == a[1..] + [x];
      if a[0] == b[0] && IsSubsequence(a[1..], b[1..]) {
        SubsequenceAppend(a[1..], b[1..], x);
      } else {
        SubsequenceAppend(a, b[1..], x);
      }
    }
  }

  lemma {:induction false} SubsequenceSingleton<T>(b: seq<T>, x: T)
    ensures IsSubsequence([x], b + [x])
  {
    if b != [] {
      assert (b + [x])[1..] == b[1..] + [x];
      SubsequenceSingleton(b[1..], x);
    } else {
      assert [x][1..] == [];
    }
  }

  /** De-duplicating a list without repetitions returns it unchanged. */
  lemma {:induction false} DedupDistinct<T>(s: seq<T>)
    requires Distinct(s)
    ensures Dedup(s) == s
  {
    if s != [] {
      var n := |s| - 1;
      var init := s[..n];
      forall i, j | 0 <= i < j < |init|
        ensures init[i] != init[j]
      {
        assert init[i] == s[i] && init[j] == s[j];
      }
      DedupDistinct(init);
      forall k | 0 <= k < n
        ensures init[k] != s[n]
      {
        assert init[k] == s[k];
      }
      assert s == init + [s[n]];
    }
  }

  // ---------------------------------------------------------------- the keyword list of fetchTemplates

  /** One comma-separated piece as fetchTemplates normalises it: `item.trim().toLowerCase()`. */
  function NormalisePiece(p: string): string {
    ToLower(Trim(p))
  }

  /** The pieces of `keyword`, each normalised, in input order (duplicates kept). */
  function NormalisedPieces(keyword: string): seq<string> {
    var pieces := Split(keyword, ',');
    seq(|pieces|, i requires 0 <= i < |pieces| => NormalisePiece(pieces[i]))
  }

  /** finalKeywords: the normalised pieces without repetitions, in order of first occurrence. */
  function FinalKeywords(keyword: string): seq<string> {
    Dedup(NormalisedPieces(keyword))
  }

  /** The keywords fetchTemplates requests: none for an empty keyword (its early return), else finalKeywords. */
  function RequestedKeywords(keyword: string): Option<seq<string>> {
    if keyword == "" then None else Some(FinalKeywords(keyword))
  }

  /** A normalised keyword: no white space at either end and no upper-case letter. */
  predicate IsNormalKeyword(k: string) {
    Trimmed(k) && NoUpper(k)
  }

  lemma NormalisePieceSpec(p: string)
    ensures IsNormalKeyword(NormalisePiece(p))
  {
    TrimSpec(p);
    ToLowerSpec(Trim(p));
  }

  /** Every normalised piece is a normal keyword, and the pieces are exactly the normalised input pieces. */
  lemma NormalisedPiecesSpec(keyword: string)
    ensures forall k :: k in NormalisedPieces(keyword) ==> IsNormalKeyword(k)
    ensures forall p :: p in Split(keyword, ',') ==> NormalisePiece(p) in NormalisedPieces(keyword)
    ensures forall k :: k in NormalisedPieces(keyword) ==> exists p :: p in Split(keyword, ',') && NormalisePiece(p) == k
  {
    var ps := NormalisedPieces(keyword);
    var pieces := Split(keyword, ',');
    forall k | k in ps
      ensures IsNormalKeyword(k)
    {
      var i :| 0 <= i < |ps| && ps[i] == k;
      NormalisePieceSpec(pieces[i]);
    }
    forall p | p in pieces
      ensures NormalisePiece(p) in ps
    {
      var i :| 0 <= i < |pieces| && pieces[i] == p;
      assert ps[i] == NormalisePiece(p);
    }
    forall k | k in ps
      ensures exists p :: p in pieces && NormalisePiece(p) == k
    {
      var i :| 0 <= i < |ps| && ps[i] == k;
      assert pieces[i] in pieces;
    }
  }

  /**
   * What a keyword string becomes: at least one keyword; every keyword trimmed and lower-cased; no
   * keyword twice; every comma-separated piece (normalised) present; nothing else present; and the
   * keywords in the order in which they first occur among the pieces.
   */
  lemma FinalKeywordsSpec(keyword: string)
    ensures |FinalKeywords(keyword)| >= 1
    ensures forall k :: k in FinalKeywords(keyword) ==> IsNormalKeyword(k)
    ensures Distinct(FinalKeywords(keyword))
    ensures forall p :: p in Split(keyword, ',') ==> NormalisePiece(p) in FinalKeywords(keyword)
    ensures forall k :: k in FinalKeywords(keyword) <==> k in NormalisedPieces(keyword)
    ensures forall k :: k in FinalKeywords(keyword) ==> exists p :: p in Split(keyword, ',') && NormalisePiece(p) == k
    ensures var ks, ps := FinalKeywords(keyword), NormalisedPieces(keyword);
      forall i, j :: 0 <= i < j < |ks| ==> FirstIndex(ps, ks[i]) < FirstIndex(ps, ks[j])
  {
    var ps := NormalisedPieces(keyword);
    DedupSpec(ps);
    NormalisedPiecesSpec(keyword);
    assert ps[0] in ps;
  }

  /** An empty keyword requests nothing; any other requests its final keywords. */
  lemma RequestedKeywordsSpec(keyword: string)
    ensures RequestedKeywords(keyword).None? <==> keyword == ""
    ensures keyword != "" ==> RequestedKeywords(keyword) == Some(FinalKeywords(keyword))
  {
  }

  /** The guard looks at the raw keyword: one made of white space only still requests the empty keyword. */
  lemma BlankKeywordRequestsEmpty()
    ensures RequestedKeywords(" ") == Some([""])
  {
    SplitPiece(" ", ',');
    assert " "[1..] == [];
    assert Trim(" ") == "";
    assert NormalisedPieces(" ") == [""];
    assert Dedup([""]) == [""];
  }

  // ---------------------------------------------------------------- getInitialUserKeyword

  /**
   * The keyword searched when the user has typed none: the lower-cased business type, unless that is
   * "others"; then the first stored keyword, or, without stored keywords, the business name.
   */
  function InitialUserKeyword(businessType: string, keywords: seq<string>, businessName: string): string {
    var t := ToLower(businessType);
    if t != "others" then t else if |keywords| > 0 then keywords[0] else businessName
  }

  /**
   * The fallback keyword is decided case-insensitively on the business type; a type other than
   * "others" is returned lower-cased; "others" in any capitalisation falls back to the first stored
   * keyword, then to the business name.
   */
  lemma InitialUserKeywordSpec(businessType: string, keywords: seq<string>, businessName: string)
    ensures var r := InitialUserKeyword(businessType, keywords, businessName);
      && r == InitialUserKeyword(ToLower(businessType), keywords, businessName)
      && (ToLower(businessType) != "others" ==> r == ToLower(businessType) && NoUpper(r) && |r| == |businessType|)
      && (ToLower(businessType) == "others" && keywords != [] ==> r == keywords[0])
      && (ToLower(businessType) == "others" && keywords == [] ==> r == businessName)
  {
    ToLowerSpec(businessType);
  }

  /** The keyword the search effect passes to fetchTemplates: the debounced input if non-empty, else the fallback. */
  function SearchKeyword(debounced: string, businessType: string, keywords: seq<string>, businessName: string): string {
    if debounced != "" then debounced else InitialUserKeyword(businessType, keywords, businessName)
  }
}
