/**
 * The translation marker `TRANSLATION_PATTERN = \{(.*?)\s\[(.+?)\]\}` as a
 * specified matcher, and the left-to-right scan that `re.sub` performs with it.
 *
 * A marker is `{` original, one whitespace character, `[` translated `]}`.
 * `.` never matches a newline, so neither group contains one; the original may
 * be empty, the translated text may not. Both groups are lazy: at a given start
 * the backtracking engine tries original lengths 0, 1, 2, ... and, for each,
 * translated lengths 1, 2, ..., so the match it reports is the one whose pair of
 * lengths is least in lexicographic order.
 */
module TranslationPattern {
  import opened Wrappers
  import opened Text

  predicate NoNewline(s: string) {
    forall i :: 0 <= i < |s| ==> s[i] != '\n'
  }

  /** A marker starts at `i` with an original of length `a` and a translated
      text of length `b`. */
  predicate MatchesAt(s: string, i: nat, a: nat, b: nat) {
    && i + a + b + 5 <= |s|
    && s[i] == '{'
    && NoNewline(s[i + 1..i + 1 + a])
    && IsSpace(s[i + 1 + a])
    && s[i + 2 + a] == '['
    && 1 <= b
    && NoNewline(s[i + 3 + a..i + 3 + a + b])
    && s[i + 3 + a + b] == ']'
    && s[i + 4 + a + b] == '}'
  }

  /** `(a, b)` comes no later than `(x, y)` in the lazy groups' search order. */
  predicate LexLe(a: nat, b: nat, x: nat, y: nat) {
    a < x || (a == x && b <= y)
  }

  /** A marker found in `s`: where it starts and its two groups. */
  datatype Match = Match(start: nat, original: string, translated: string)

  /** One past the closing `}`. */
  function End(m: Match): nat {
    m.start + |m.original| + |m.translated| + 5
  }

  /** `m` is a marker of `s`, its groups read from `s`. */
  predicate IsMatch(s: string, m: Match) {
    && MatchesAt(s, m.start, |m.original|, |m.translated|)
    && m.original == s[m.start + 1..m.start + 1 + |m.original|]
    && m.translated == s[m.start + 3 + |m.original|..m.start + 3 + |m.original| + |m.translated|]
  }

  /** The shortest translated length, from `b` upward, that completes a marker
      at `i` whose original has length `a`. */
  function FirstTranslated(s: string, i: nat, a: nat, b: nat): (r: Option<nat>)
    ensures r.Some? ==> b <= r.value && MatchesAt(s, i, a, r.value)
    ensures r.Some? ==> forall y :: b <= y < r.value ==> !MatchesAt(s, i, a, y)
    ensures r.None? ==> forall y :: b <= y ==> !MatchesAt(s, i, a, y)
    decreases |s| + 1 - b
  {
    if b > |s| then None
    else if MatchesAt(s, i, a, b) then Some(b)
    else FirstTranslated(s, i, a, b + 1)
  }

  /** The least pair of group lengths, with original length from `a` upward,
      that completes a marker at `i`. */
  function FirstLengths(s: string, i: nat, a: nat): (r: Option<(nat, nat)>)
    ensures r.Some? ==> a <= r.value.0 && MatchesAt(s, i, r.value.0, r.value.1)
    ensures r.Some? ==> forall x, y :: a <= x && MatchesAt(s, i, x, y) ==> LexLe(r.value.0, r.value.1, x, y)
    ensures r.None? ==> forall x, y :: a <= x ==> !MatchesAt(s, i, x, y)
    decreases |s| + 1 - a
  {
    if a > |s| then None
    else
      match FirstTranslated(s, i, a, 0)
      case Some(b) => Some((a, b))
      case None => FirstLengths(s, i, a + 1)
  }

  /** What the compiled pattern's `match` reports at position `i`. */
  function MatchAt(s: string, i: nat): (r: Option<Match>)
    ensures r.Some? ==> r.value.start == i && IsMatch(s, r.value)
  {
    match FirstLengths(s, i, 0)
    case None => None
    case Some((a, b)) => Some(Match(i, s[i + 1..i + 1 + a], s[i + 3 + a..i + 3 + a + b]))
  }

  /** The match reported at `i` is the lazy groups' choice: no marker starting
      there has a smaller pair of lengths, and none is reported only when no
      marker starts there at all. */
  lemma MatchAtIsLeast(s: string, i: nat)
    ensures MatchAt(s, i).Some? ==>
              forall x, y :: MatchesAt(s, i, x, y) ==> LexLe(|MatchAt(s, i).value.original|, |MatchAt(s, i).value.translated|, x, y)
    ensures MatchAt(s, i).None? <==> forall x, y :: !MatchesAt(s, i, x, y)
  {
  }

  /** Every marker opens with `{`. */
  lemma MatchOpensWithBrace(s: string, i: nat)
    requires MatchAt(s, i).Some?
    ensures i < |s| && s[i] == '{'
  {
  }

  /** No marker starts anywhere in `[lo, hi)`. */
  predicate NoMatchIn(s: string, lo: nat, hi: nat) {
    forall p :: lo <= p < hi ==> MatchAt(s, p).None?
  }

  /** `ms` is what a left-to-right, non-overlapping search from `pos` finds: the
      first marker starts at the leftmost position where one starts at all, and
      the search resumes right after it. */
  predicate LeftmostTiling(s: string, pos: nat, ms: seq<Match>)
    decreases |ms|
  {
    if ms == [] then pos <= |s| && NoMatchIn(s, pos, |s|)
    else
      && pos <= ms[0].start
      && NoMatchIn(s, pos, ms[0].start)
      && MatchAt(s, ms[0].start) == Some(ms[0])
      && LeftmostTiling(s, End(ms[0]), ms[1..])
  }

  lemma TilingStep(s: string, pos: nat, ms: seq<Match>)
    requires pos < |s| && MatchAt(s, pos).None?
    requires LeftmostTiling(s, pos + 1, ms)
    ensures LeftmostTiling(s, pos, ms)
  {
  }

  /** The markers `re.sub` and `re.finditer` visit, from `pos` on. */
  function Scan(s: string, pos: nat): (ms: seq<Match>)
    requires pos <= |s|
    ensures LeftmostTiling(s, pos, ms)
    decreases |s| - pos
  {
    if pos == |s| then []
    else
      match MatchAt(s, pos)
      case None =>
        var ms := Scan(s, pos + 1);
        TilingStep(s, pos, ms);
        ms
      case Some(m) => [m] + Scan(s, End(m))
  }

  /** A tiling from `q` is one from `pos` too when no marker starts in between. */
  lemma TilingExtend(s: string, pos: nat, q: nat, ms: seq<Match>)
    requires pos <= q
    requires NoMatchIn(s, pos, q)
    requires LeftmostTiling(s, q, ms)
    ensures LeftmostTiling(s, pos, ms)
  {
    if ms == [] {
      assert NoMatchIn(s, q, |s|);
    } else {
      assert NoMatchIn(s, q, ms[0].start);
    }
  }

  /** Two leftmost tilings from the same position are both empty or both
      start their first marker at the same place. */
  lemma FirstMarkersAgree(s: string, pos: nat, ms: seq<Match>, ns: seq<Match>)
    requires LeftmostTiling(s, pos, ms)
    requires LeftmostTiling(s, pos, ns)
    ensures (ms == []) == (ns == [])
    ensures ms != [] && ns != [] ==> ms[0] == ns[0]
  {
  }

  /** There is only one leftmost non-overlapping tiling from a position. */
  lemma {:induction false} TilingsAgree(s: string, pos: nat, ms: seq<Match>, ns: seq<Match>)
    requires LeftmostTiling(s, pos, ms)
    requires LeftmostTiling(s, pos, ns)
    ensures ms == ns
    decreases |ms|
  {
    FirstMarkersAgree(s, pos, ms, ns);
    if ms != [] && ns != [] {
      TilingsAgree(s, End(ms[0]), ms[1..], ns[1..]);
      assert ms == [ms[0]] + ms[1..] && ns == [ns[0]] + ns[1..];
    }
  }

  /** A stretch without markers does not change what the scan finds. */
  lemma ScanSkips(s: string, pos: nat, q: nat)
    requires pos <= q <= |s|
    requires NoMatchIn(s, pos, q)
    ensures Scan(s, pos) == Scan(s, q)
  {
    TilingExtend(s, pos, q, Scan(s, q));
    TilingsAgree(s, pos, Scan(s, pos), Scan(s, q));
  }

  /** The scan is the only leftmost non-overlapping tiling: any sequence of
      markers with that property is exactly what `Scan` returns. */
  lemma ScanUnique(s: string, pos: nat, ms: seq<Match>)
    requires pos <= |s|
    requires LeftmostTiling(s, pos, ms)
    ensures Scan(s, pos) == ms
  {
    TilingsAgree(s, pos, Scan(s, pos), ms);
  }

  /** Text without `{` holds no marker. */
  lemma {:induction false} NoBraceNoMarker(s: string, pos: nat)
    requires pos <= |s|
    requires forall p :: pos <= p < |s| ==> s[p] != '{'
    ensures Scan(s, pos) == []
  {
    forall p | pos <= p < |s| ensures MatchAt(s, p).None? {
      if MatchAt(s, p).Some? {
        MatchOpensWithBrace(s, p);
      }
    }
    ScanSkips(s, pos, |s|);
  }
}
