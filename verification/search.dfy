/**
 Full-text search over the local cache (`searchJournalEntries` and its
 helpers): entries whose plain text contains the query case-insensitively,
 each reported with a context snippet in which the query is highlighted, most
 recent date first.

 The HTML-to-text projection (`stripHtml`, done by the browser's parser) is a
 parameter `plain`. Case-insensitivity is ASCII case folding. The regular
 expression built from the escaped query is modelled by what it denotes: a
 literal, case-insensitive match, scanned left to right as a global `replace`.
 */
module SearchIndex {
  import opened Wrappers
  import opened Text
  import opened LocalCache
  import opened DateOrder

  /** Characters shown on each side of the first match. */
  const ContextLength: nat := 50
  /** Characters shown when no match is found. */
  const FallbackLength: nat := 100
  const Ellipsis: string := "..."
  const MarkOpen: string := "<span style=\"color: var(--primary); font-weight: 600;\">"
  const MarkClose: string := "</span>"
  /** `|MarkOpen| + |MarkClose|`, as a literal so that lengths stay linear arithmetic. */
  const MarkPairLength: nat := 62

  function Min(a: int, b: int): int {
    if a <= b then a else b
  }

  function Max(a: int, b: int): int {
    if a >= b then a else b
  }

  // ---------------------------------------------------------------------------
  // Context snippet

  /**
   `getSearchContext(text, query)`: the text 50 characters either side of the
   first case-insensitive occurrence of `query`, with "..." on each side that
   was cut; the first 100 characters and "..." when there is no occurrence.
   */
  function SearchContext(text: string, query: string): (r: string)
    ensures IndexOf(Lower(text), Lower(query)).None? ==> r == text[..Min(|text|, FallbackLength)] + Ellipsis
    ensures IndexOf(Lower(text), Lower(query)).Some? ==> |r| <= |query| + 2 * ContextLength + 2 * |Ellipsis|
  {
    ContextAt(text, query, IndexOf(Lower(text), Lower(query)))
  }

  /** The snippet for a given outcome of the search for the first occurrence. */
  function ContextAt(text: string, query: string, found: Option<nat>): string
    requires found.Some? ==> found.value + |query| <= |text|
  {
    match found
    case None => text[..Min(|text|, FallbackLength)] + Ellipsis
    case Some(i) => Window(text, Max(0, i - ContextLength), Min(|text|, i + |query| + ContextLength))
  }

  /** `text[start..end]`, with "..." on each side that was cut. */
  function Window(text: string, start: int, end: int): string
    requires 0 <= start <= end <= |text|
  {
    (if start > 0 then Ellipsis else "") + text[start..end] + (if end < |text| then Ellipsis else "")
  }

  /**
   With the first match at `i`, the snippet is the window `[i - 50, i + |query| + 50)`
   clipped to the text, marked "..." exactly on each clipped side.
   */
  lemma ContextWindow(text: string, query: string, i: nat)
    requires IndexOf(Lower(text), Lower(query)) == Some(i)
    ensures var start := Max(0, i - ContextLength);
      var end := Min(|text|, i + |query| + ContextLength);
      && start <= i && i + |query| <= end <= |text|
      && SearchContext(text, query) == (if start > 0 then Ellipsis else "") + text[start..end] + (if end < |text| then Ellipsis else "")
      && (start > 0 <==> i > ContextLength)
      && (end < |text| <==> i + |query| + ContextLength < |text|)
  {
    assert MatchAt(Lower(text), Lower(query), i);
    assert i + |query| <= |text|;
  }

  /** The snippet depends on the query only through its length and its lower-cased form. */
  lemma ContextCaseBlind(text: string, q1: string, q2: string)
    requires |q1| == |q2| && Lower(q1) == Lower(q2)
    ensures SearchContext(text, q1) == SearchContext(text, q2)
  {
  }

  /** An occurrence inside a middle part is an occurrence in the whole. */
  lemma MatchInMiddle(a: string, b: string, c: string, p: string, i: int)
    requires MatchAt(b, p, i)
    ensures MatchAt(a + b + c, p, |a| + i)
  {
    assert (a + b + c)[|a| + i..|a| + i + |p|] == b[i..i + |p|];
  }

  /** An occurrence inside a window is an occurrence in the window. */
  lemma MatchInWindow(s: string, p: string, i: int, a: int, b: int)
    requires MatchAt(s, p, i) && 0 <= a <= i && i + |p| <= b <= |s|
    ensures MatchAt(s[a..b], p, i - a)
  {
    var w := s[a..b];
    forall j | i - a <= j < i - a + |p|
      ensures w[j] == s[j + a]
    {
    }
    assert w[i - a..i - a + |p|] == s[i..i + |p|];
  }

  /** A matched snippet still contains the query, case-insensitively. */
  lemma ContextShowsMatch(text: string, query: string)
    requires Includes(Lower(text), Lower(query))
    ensures Includes(Lower(SearchContext(text, query)), Lower(query))
  {
    var lt, lq := Lower(text), Lower(query);
    var i := IndexOf(lt, lq).value;
    var start := Max(0, i - ContextLength);
    var end := Min(|text|, i + |query| + ContextLength);
    var pre: string := if start > 0 then Ellipsis else "";
    var suf: string := if end < |text| then Ellipsis else "";
    ContextWindow(text, query, i);
    var window := text[start..end];
    var r := SearchContext(text, query);
    assert r == pre + window + suf;
    LowerAppend(pre + window, suf);
    LowerAppend(pre, window);
    assert Lower(r) == Lower(pre) + Lower(window) + Lower(suf);
    LowerSlice(text, start, end);
    MatchInWindow(lt, lq, i, start, end);
    MatchInMiddle(Lower(pre), Lower(window), Lower(suf), lq, i - start);
    assert MatchAt(Lower(r), lq, |Lower(pre)| + i - start);
  }

  // ---------------------------------------------------------------------------
  // Escaping

  /** The characters the escaping pattern `[.*+?^${}()|[\]\\]` selects. */
  predicate IsRegexSpecial(c: char) {
    c in ".*+?^${}()|[]\\"
  }

  /**
   `query.replace(/[.*+?^${}()|[\]\\]/g, '\\$&')`: a backslash before every
   special character. The result is a well-formed pattern that denotes exactly
   the query as a literal string.
   */
  function Escape(q: string): (r: string)
    ensures |r| >= |q|
    ensures LiteralOf(r) == Some(q)
    decreases |q|
  {
    if |q| == 0 then []
    else
      var rest := Escape(q[1..]);
      LiteralOfEscaped(q[0], rest, q[1..]);
      assert [q[0]] + q[1..] == q;
      EscapeChar(q[0]) + rest
  }

  /** One character as the escaping writes it. */
  function EscapeChar(c: char): string {
    if IsRegexSpecial(c) then ['\\', c] else [c]
  }

  /**
   The literal string a pattern denotes when it consists only of ordinary
   characters and backslash-escaped special characters; `None` for any other
   pattern (an unescaped special character, or an escape with another meaning).
   */
  function LiteralOf(p: string): (r: Option<string>)
    decreases |p|
  {
    if |p| == 0 then Some([])
    else if p[0] == '\\' then
      if |p| >= 2 && IsRegexSpecial(p[1]) then
        match LiteralOf(p[2..])
        case Some(rest) => Some([p[1]] + rest)
        case None => None
      else None
    else if IsRegexSpecial(p[0]) then None
    else
      match LiteralOf(p[1..])
      case Some(rest) => Some([p[0]] + rest)
      case None => None
  }

  /** Reading an escaped character followed by a pattern gives the character followed by what the pattern denotes. */
  lemma LiteralOfEscaped(c: char, p: string, x: string)
    requires LiteralOf(p) == Some(x)
    ensures LiteralOf(EscapeChar(c) + p) == Some([c] + x)
  {
    var h := EscapeChar(c);
    assert (h + p)[|h|..] == p;
    if IsRegexSpecial(c) {
      assert (h + p)[0] == '\\' && (h + p)[1] == c;
    } else {
      assert (h + p)[0] == c;
    }
  }

  /** Ordinary characters pass through escaping unchanged. */
  lemma {:induction false} EscapeOrdinary(q: string)
    requires forall k :: 0 <= k < |q| ==> !IsRegexSpecial(q[k])
    ensures Escape(q) == q
  {
    if |q| > 0 {
      EscapeOrdinary(q[1..]);
      assert [q[0]] + q[1..] == q;
    }
  }

  // ---------------------------------------------------------------------------
  // Highlighting

  /** A stretch of the snippet: left as is, or wrapped in the highlight markers. */
  datatype Piece = Plain(text: string) | Marked(text: string)

  /** The snippet with the markers deleted. */
  function Flatten(ps: seq<Piece>): string {
    if |ps| == 0 then [] else ps[0].text + Flatten(ps[1..])
  }

  /** The number of marked stretches. */
  function MarkedCount(ps: seq<Piece>): nat {
    if |ps| == 0 then 0 else (if ps[0].Marked? then 1 else 0) + MarkedCount(ps[1..])
  }

  /**
   The snippet with each marked stretch wrapped in `<span ...>` and `</span>`:
   the snippet itself when nothing is marked, and otherwise longer by one pair
   of markers per marked stretch.
   */
  function Render(ps: seq<Piece>): (r: string)
    ensures MarkedCount(ps) == 0 ==> r == Flatten(ps)
    ensures |r| == |Flatten(ps)| + MarkedCount(ps) * MarkPairLength
  {
    if |ps| == 0 then [] else RenderPiece(ps[0]) + Render(ps[1..])
  }

  /** One stretch as `highlightSearchTerm` writes it. */
  function RenderPiece(x: Piece): string {
    match x
    case Plain(s) => s
    case Marked(s) => MarkOpen + s + MarkClose
  }

  /** A single piece renders as its text, wrapped between the opening and the closing marker when marked. */
  lemma RenderOne(x: Piece)
    ensures Render([x]) == if x.Marked? then MarkOpen + x.text + MarkClose else x.text
  {
    assert [x][1..] == [];
  }

  /** Rendering goes piece by piece: the rendering of a concatenation is the concatenation of the renderings. */
  lemma {:induction false} RenderAppend(a: seq<Piece>, b: seq<Piece>)
    ensures Render(a + b) == Render(a) + Render(b)
    decreases |a|
  {
    if |a| == 0 {
      assert a + b == b;
    } else {
      RenderAppend(a[1..], b);
      assert (a + b)[0] == a[0];
      assert (a + b)[1..] == a[1..] + b;
      calc {
        Render(a + b);
        RenderPiece(a[0]) + Render(a[1..] + b);
        RenderPiece(a[0]) + (Render(a[1..]) + Render(b));
        (RenderPiece(a[0]) + Render(a[1..])) + Render(b);
      }
    }
  }

  /**
   How `text.replace(/(q)/gi, ...)` splits `t`: scanning left to right, each
   case-insensitive occurrence of `q` is marked and skipped; an empty `q`
   matches (emptily) before every character and at the end.
   */
  function Pieces(t: string, q: string): (ps: seq<Piece>)
    ensures Flatten(ps) == t
    ensures forall k :: 0 <= k < |ps| && ps[k].Marked? ==> Lower(ps[k].text) == Lower(q)
    decreases |t|
  {
    if |q| == 0 then
      if |t| == 0 then [Marked([])]
      else
        var rest := Pieces(t[1..], q);
        assert Flatten([Plain([t[0]])] + rest) == [t[0]] + Flatten(rest);
        [Marked([])] + ([Plain([t[0]])] + rest)
    else if |q| <= |t| && Lower(t[..|q|]) == Lower(q) then
      var rest := Pieces(t[|q|..], q);
      assert t[..|q|] + t[|q|..] == t;
      [Marked(t[..|q|])] + rest
    else if |t| == 0 then []
    else
      var rest := Pieces(t[1..], q);
      assert [t[0]] + t[1..] == t;
      [Plain([t[0]])] + rest
  }

  /**
   `highlightSearchTerm(text, query)`: never shorter than the text, and for a
   non-empty query different from it exactly when the query occurs in it,
   ignoring case.
   */
  function Highlight(t: string, q: string): (r: string)
    ensures |r| >= |t|
    ensures |q| > 0 && Includes(Lower(t), Lower(q)) ==> |r| > |t|
    ensures |q| > 0 && !Includes(Lower(t), Lower(q)) ==> r == t
  {
    if |q| > 0 then HighlightChanges(t, q); Render(Pieces(t, q))
    else Render(Pieces(t, q))
  }

  /** Highlighting depends on the query only through its length and its lower-cased form. */
  lemma {:induction false} PiecesCaseBlind(t: string, q1: string, q2: string)
    requires |q1| == |q2| && Lower(q1) == Lower(q2)
    ensures Pieces(t, q1) == Pieces(t, q2)
    decreases |t|
  {
    if |q1| == 0 {
      if |t| > 0 {
        PiecesCaseBlind(t[1..], q1, q2);
      }
    } else if |q1| <= |t| && Lower(t[..|q1|]) == Lower(q1) {
      PiecesCaseBlind(t[|q1|..], q1, q2);
    } else if |t| > 0 {
      PiecesCaseBlind(t[1..], q1, q2);
    }
  }

  /** A sequence with a marked piece has a positive marked count. */
  lemma {:induction false} MarkedCountPositive(ps: seq<Piece>, k: nat)
    requires k < |ps| && ps[k].Marked?
    ensures MarkedCount(ps) > 0
  {
    if k > 0 {
      MarkedCountPositive(ps[1..], k - 1);
    }
  }

  /** For a non-empty query, highlighting leaves the text unchanged exactly when the query does not occur. */
  lemma HighlightChanges(t: string, q: string)
    requires |q| > 0
    ensures Render(Pieces(t, q)) == t <==> !Includes(Lower(t), Lower(q))
  {
    var ps := Pieces(t, q);
    if Includes(Lower(t), Lower(q)) {
      var i := IndexOf(Lower(t), Lower(q)).value;
      PiecesMarksAMatch(t, q, i);
      var k :| 0 <= k < |ps| && ps[k].Marked?;
      MarkedCountPositive(ps, k);
    } else {
      HighlightWithoutMatch(t, q);
    }
  }

  /** Without a case-insensitive occurrence of a non-empty query, no stretch is marked and highlighting returns the text unchanged. */
  lemma {:induction false} HighlightWithoutMatch(t: string, q: string)
    requires |q| > 0 && forall i :: !MatchAt(Lower(t), Lower(q), i)
    ensures MarkedCount(Pieces(t, q)) == 0 && Render(Pieces(t, q)) == t
    decreases |t|
  {
    if |q| <= |t| {
      LowerSlice(t, 0, |q|);
      assert !MatchAt(Lower(t), Lower(q), 0);
    }
    if |t| > 0 {
      LowerSlice(t, 1, |t|);
      assert Lower(t[1..]) == Lower(t)[1..];
      forall i
        ensures !MatchAt(Lower(t[1..]), Lower(q), i)
      {
        if i >= 0 {
          MatchShift(Lower(t), Lower(q), 1, i);
        }
      }
      HighlightWithoutMatch(t[1..], q);
      assert [t[0]] + t[1..] == t;
    }
  }

  /** An occurrence in a suffix is an occurrence in the whole, shifted by the suffix's start. */
  lemma MatchShift(s: string, p: string, a: nat, j: nat)
    requires a <= |s|
    ensures MatchAt(s[a..], p, j) <==> MatchAt(s, p, a + j)
  {
    if 0 <= j && j + |p| <= |s| - a {
      assert s[a..][j..j + |p|] == s[a + j..a + j + |p|];
    }
  }

  /** The test `Pieces` makes at the front of the text is a case-insensitive occurrence at index 0. */
  lemma MatchAtStart(t: string, q: string)
    ensures MatchAt(Lower(t), Lower(q), 0) <==> |q| <= |t| && Lower(t[..|q|]) == Lower(q)
  {
    if |q| <= |t| {
      LowerSlice(t, 0, |q|);
    }
  }

  /** The text before piece `k` of `[x] + r` is `x`'s text followed by the text before piece `k - 1` of `r`. */
  lemma FlattenPrefixCons(x: Piece, r: seq<Piece>, k: nat)
    requires 1 <= k <= |r| + 1
    ensures |Flatten(([x] + r)[..k])| == |x.text| + |Flatten(r[..k - 1])|
  {
    assert ([x] + r)[..k] == [x] + r[..k - 1];
    assert ([x] + r[..k - 1])[1..] == r[..k - 1];
  }

  /**
   An offset into the pieces after a leading piece `x` of length `a` is an
   offset into the text after its first `a` characters: an occurrence starts
   at one exactly when it starts at the other.
   */
  lemma ScanShift(t: string, q: string, x: Piece, rest: seq<Piece>, k: nat)
    requires |x.text| <= |t| && 1 <= k <= |rest|
    ensures var a := |x.text|;
      MatchAt(Lower(t[a..]), Lower(q), |Flatten(rest[..k - 1])|)
      <==> MatchAt(Lower(t), Lower(q), |Flatten(([x] + rest)[..k])|)
  {
    var a := |x.text|;
    FlattenPrefixCons(x, rest, k);
    LowerSlice(t, a, |t|);
    MatchShift(Lower(t), Lower(q), a, |Flatten(rest[..k - 1])|);
  }

  /**
   For a non-empty query the split is the left-to-right scan of a global
   `replace`: a piece starting at offset `at` is marked exactly when an
   occurrence starts there, a marked piece is as long as the query, and an
   unmarked piece is a single character.
   */
  lemma {:induction false} PiecesScan(t: string, q: string, k: nat)
    requires |q| > 0 && k < |Pieces(t, q)|
    ensures var ps := Pieces(t, q);
      var at := |Flatten(ps[..k])|;
      && (ps[k].Marked? <==> MatchAt(Lower(t), Lower(q), at))
      && (ps[k].Marked? ==> |ps[k].text| == |q|)
      && (ps[k].Plain? ==> |ps[k].text| == 1)
    decreases |t|
  {
    var ps := Pieces(t, q);
    MatchAtStart(t, q);
    var x: Piece;
    if |q| <= |t| && Lower(t[..|q|]) == Lower(q) {
      x := Marked(t[..|q|]);
    } else if |t| > 0 {
      x := Plain([t[0]]);
    } else {
      return;
    }
    var rest := Pieces(t[|x.text|..], q);
    assert ps == [x] + rest;
    if k == 0 {
      assert ps[..0] == [];
    } else {
      PiecesScan(t[|x.text|..], q, k - 1);
      ScanShift(t, q, x, rest, k);
      assert ps[k] == rest[k - 1];
    }
  }

  /** A text containing a non-empty query, ignoring case, gets at least one marked stretch. */
  lemma {:induction false} PiecesMarksAMatch(t: string, q: string, i: int)
    requires |q| > 0 && MatchAt(Lower(t), Lower(q), i)
    ensures exists k :: 0 <= k < |Pieces(t, q)| && Pieces(t, q)[k].Marked?
    decreases |t|
  {
    MatchAtStart(t, q);
    if |q| <= |t| && Lower(t[..|q|]) == Lower(q) {
      assert Pieces(t, q)[0].Marked?;
    } else {
      assert 1 <= i;
      LowerSlice(t, 1, |t|);
      MatchShift(Lower(t), Lower(q), 1, i - 1);
      PiecesMarksAMatch(t[1..], q, i - 1);
      var k :| 0 <= k < |Pieces(t[1..], q)| && Pieces(t[1..], q)[k].Marked?;
      assert Pieces(t, q)[k + 1] == Pieces(t[1..], q)[k];
    }
  }

  // ---------------------------------------------------------------------------
  // Search

  /** One search hit: the date, the highlighted snippet, and the entry's mood. */
  datatype SearchResult = SearchResult(date: Date, content: string, mood: Option<Mood>)

  /** The entry's plain text contains the query, ignoring case. */
  predicate Matches(plain: string -> string, e: Entry, q: string) {
    Includes(Lower(plain(e.content)), Lower(q))
  }

  /** The hit reported for a matching entry. */
  function ResultFor(plain: string -> string, d: Date, e: Entry, q: string): (r: SearchResult)
    ensures r.date == d && r.mood == e.mood
  {
    var text := plain(e.content);
    SearchResult(d, Highlight(SearchContext(text, q), q), e.mood)
  }

  /** The dates whose entries match the query. */
  function MatchingDates(cache: Cache, plain: string -> string, q: string): (ds: set<Date>)
    ensures forall d :: d in ds <==> d in cache && Matches(plain, cache[d], q)
  {
    set d | d in cache && Matches(plain, cache[d], q)
  }

  /** The hits for the given dates, in the given order. */
  function HitsFor(cache: Cache, plain: string -> string, q: string, ds: seq<Date>): (rs: seq<SearchResult>)
    requires forall k :: 0 <= k < |ds| ==> ds[k] in cache
    ensures |rs| == |ds|
    ensures forall k :: 0 <= k < |rs| ==> rs[k] == ResultFor(plain, ds[k], cache[ds[k]], q)
    ensures forall k :: 0 <= k < |rs| ==> rs[k].date == ds[k] && rs[k].mood == cache[ds[k]].mood
    ensures forall k :: 0 <= k < |rs| ==> rs[k] == ResultFor(plain, rs[k].date, cache[rs[k].date], q)
    ensures forall d :: d in ds <==> exists k :: 0 <= k < |rs| && rs[k].date == d
  {
    var rs := seq(|ds|, k requires 0 <= k < |ds| => ResultFor(plain, ds[k], cache[ds[k]], q));
    assert forall k :: 0 <= k < |rs| ==> rs[k].date == ds[k];
    rs
  }

  /**
   `searchJournalEntries(query)`: nothing for a blank query; otherwise one hit
   per matching cache entry, most recent date first.
   */
  function Search(cache: Cache, plain: string -> string, q: string): (rs: seq<SearchResult>)
    ensures IsBlank(q) ==> rs == []
    ensures !IsBlank(q) ==>
      forall d :: d in MatchingDates(cache, plain, q) <==> exists k :: 0 <= k < |rs| && rs[k].date == d
    ensures forall k :: 0 <= k < |rs| ==> rs[k].date in cache && rs[k].date in MatchingDates(cache, plain, q)
    ensures forall k :: 0 <= k < |rs| ==> rs[k] == ResultFor(plain, rs[k].date, cache[rs[k].date], q)
    ensures forall k :: 0 <= k < |rs| ==> rs[k].mood == cache[rs[k].date].mood
    ensures forall i, j :: 0 <= i < j < |rs| ==> rs[i].date > rs[j].date
  {
    if IsBlank(q) then []
    else
      var matching := MatchingDates(cache, plain, q);
      var ds := SortedDesc(matching);
      HitsFor(cache, plain, q, ds)
  }

  /** Hits for the same dates agree for two queries that differ only in case. */
  lemma HitsForCaseBlind(cache: Cache, plain: string -> string, q1: string, q2: string, ds: seq<Date>)
    requires forall k :: 0 <= k < |ds| ==> ds[k] in cache
    requires |q1| == |q2| && Lower(q1) == Lower(q2)
    ensures HitsFor(cache, plain, q1, ds) == HitsFor(cache, plain, q2, ds)
  {
    var r1, r2 := HitsFor(cache, plain, q1, ds), HitsFor(cache, plain, q2, ds);
    forall k | 0 <= k < |ds|
      ensures r1[k] == r2[k]
    {
      var t := plain(cache[ds[k]].content);
      ContextCaseBlind(t, q1, q2);
      PiecesCaseBlind(SearchContext(t, q2), q1, q2);
    }
  }

  /** Upper-casing the query changes nothing: the same hits, snippets and order. */
  lemma SearchCaseInsensitive(cache: Cache, plain: string -> string, q: string)
    ensures Search(cache, plain, Upper(q)) == Search(cache, plain, q)
  {
    UpperKeepsBlank(q);
    LowerOfUpper(q);
    if !IsBlank(q) {
      assert MatchingDates(cache, plain, Upper(q)) == MatchingDates(cache, plain, q);
      var ds := SortedDesc(MatchingDates(cache, plain, q));
      HitsForCaseBlind(cache, plain, Upper(q), q, ds);
    }
  }

  /**
   The hit for an entry that matches a non-empty query shows its snippet with at
   least one occurrence highlighted. `Search` reports only such hits.
   */
  lemma HitHighlighted(plain: string -> string, d: Date, e: Entry, q: string)
    requires |q| > 0 && Matches(plain, e, q)
    ensures var snippet := SearchContext(plain(e.content), q);
      var ps := Pieces(snippet, q);
      ResultFor(plain, d, e, q).content == Render(ps) && exists j :: 0 <= j < |ps| && ps[j].Marked?
  {
    var text := plain(e.content);
    ContextShowsMatch(text, q);
    var snippet := SearchContext(text, q);
    var i := IndexOf(Lower(snippet), Lower(q)).value;
    PiecesMarksAMatch(snippet, q, i);
  }

  /** The hit shows its entry's snippet highlighted, with at least one marked stretch. */
  predicate ShowsHighlight(cache: Cache, plain: string -> string, q: string, r: SearchResult) {
    && r.date in cache
    && var ps := Pieces(SearchContext(plain(cache[r.date].content), q), q);
       r.content == Render(ps) && exists j :: 0 <= j < |ps| && ps[j].Marked?
  }

  /** Every hit `Search` reports shows its snippet with at least one occurrence highlighted. */
  lemma SearchHitsHighlighted(cache: Cache, plain: string -> string, q: string)
    ensures var rs := Search(cache, plain, q);
      forall k :: 0 <= k < |rs| ==> ShowsHighlight(cache, plain, q, rs[k])
  {
    var rs := Search(cache, plain, q);
    forall k | 0 <= k < |rs|
      ensures ShowsHighlight(cache, plain, q, rs[k])
    {
      assert !IsBlank(q) && |q| > 0;
      var d := rs[k].date;
      assert d in MatchingDates(cache, plain, q);
      HitHighlighted(plain, d, cache[d], q);
    }
  }
}
