/**
 * The phone-number extraction of a business site: the page's text nodes are
 * joined with single spaces, the pattern of `PhonePattern` is scanned for
 * left to right as `finditer` does, and the normalised matches are collected
 * into a set.
 */
module PhoneScan {
  import opened Wrappers
  import opened PhonePattern

  /** Where one match lies in the scanned text: `s[start..end]`. */
  datatype Span = Span(start: nat, end: nat)

  /**
   * A matcher gives, for a text and a start position, where the match
   * starting there ends, if there is one.
   */
  type Matcher = (string, nat) -> Option<nat>

  /** Every match a matcher reports is non-empty and lies inside the text. */
  ghost predicate Advancing(m: Matcher)
  {
    forall s: string, i: nat :: m(s, i).Some? ==> i < m(s, i).value <= |s|
  }

  /** The phone-number pattern as a matcher. */
  function Pattern(s: string, i: nat): Option<nat>
  {
    if i <= |s| then MatchAt(s, i) else None
  }

  lemma PatternAdvancing()
    ensures Advancing(Pattern)
  {
  }

  /**
   * The matches `finditer` reports from position `i` on. A search starts at
   * `i`; on a match it reports it and resumes where the match ended,
   * otherwise it tries the next position.
   */
  function Scan(m: Matcher, s: string, i: nat): (spans: seq<Span>)
    requires Advancing(m) && i <= |s|
    ensures forall k :: 0 <= k < |spans| ==> i <= spans[k].start < spans[k].end <= |s|
    ensures forall k, l :: 0 <= k < l < |spans| ==> spans[k].end <= spans[l].start
    decreases |s| - i
  {
    if i == |s| then []
    else match m(s, i)
      case Some(j) => [Span(i, j)] + Scan(m, s, j)
      case None => Scan(m, s, i + 1)
  }

  /** `finditer` of the phone-number pattern. */
  function ScanFrom(s: string, i: nat): seq<Span>
    requires i <= |s|
  {
    PatternAdvancing();
    Scan(Pattern, s, i)
  }

  /** One step of the scan when a match starts at `i`. */
  lemma ScanHit(m: Matcher, s: string, i: nat, j: nat)
    requires Advancing(m) && i < |s| && m(s, i) == Some(j)
    ensures Scan(m, s, i) == [Span(i, j)] + Scan(m, s, j)
  {
  }

  /** One step of the scan when no match starts at `i`. */
  lemma ScanMiss(m: Matcher, s: string, i: nat)
    requires Advancing(m) && i < |s| && m(s, i) == None
    ensures Scan(m, s, i) == Scan(m, s, i + 1)
  {
  }

  /** Every reported span is a match at its start. */
  lemma {:induction false} ScanSound(m: Matcher, s: string, i: nat, k: nat)
    requires Advancing(m) && i <= |s| && k < |Scan(m, s, i)|
    ensures m(s, Scan(m, s, i)[k].start) == Some(Scan(m, s, i)[k].end)
    decreases |s| - i
  {
    if i < |s| {
      match m(s, i)
      case Some(j) =>
        if k > 0 {
          ScanSound(m, s, j, k - 1);
          assert Scan(m, s, i)[k] == Scan(m, s, j)[k - 1];
        }
      case None =>
        ScanSound(m, s, i + 1, k);
    }
  }

  /** Every match from `i` on lies inside a reported one, the `k`-th. */
  lemma {:induction false} ScanComplete(m: Matcher, s: string, i: nat, p: nat) returns (k: nat)
    requires Advancing(m) && i <= p < |s| && m(s, p).Some?
    ensures k < |Scan(m, s, i)| && Scan(m, s, i)[k].start <= p < Scan(m, s, i)[k].end
    decreases |s| - i
  {
    match m(s, i)
    case Some(j) =>
      ScanHit(m, s, i, j);
      if p >= j {
        var k' := ScanComplete(m, s, j, p);
        assert Scan(m, s, i)[k' + 1] == Scan(m, s, j)[k'];
        k := k' + 1;
      } else {
        assert Scan(m, s, i)[0] == Span(i, j);
        k := 0;
      }
    case None =>
      ScanMiss(m, s, i);
      k := ScanComplete(m, s, i + 1, p);
  }

  /** The scan of a text with a match, a gap of one position and a match. */
  lemma TwoSpans(m: Matcher, s: string, n: nat)
    requires Advancing(m) && n < |s| && m(s, 0) == Some(n) && m(s, n) == None
    requires m(s, n + 1) == Some(|s|)
    ensures Scan(m, s, 0) == [Span(0, n), Span(n + 1, |s|)]
  {
    ScanHit(m, s, 0, n);
    ScanMiss(m, s, n);
    ScanHit(m, s, n + 1, |s|);
    assert Scan(m, s, |s|) == [];
  }

  /** The texts the spans cover in `s`, in order. */
  function Texts(s: string, spans: seq<Span>): (r: seq<string>)
    requires forall k :: 0 <= k < |spans| ==> spans[k].start <= spans[k].end <= |s|
    ensures |r| == |spans|
    ensures forall k :: 0 <= k < |r| ==> r[k] == s[spans[k].start..spans[k].end]
  {
    if spans == [] then [] else [s[spans[0].start..spans[0].end]] + Texts(s, spans[1..])
  }

  /** The matched texts, `[m.group(0) for m in finditer(content)]`, in content order. */
  function Matches(s: string): seq<string>
  {
    Texts(s, ScanFrom(s, 0))
  }

  /** `set(map(normalise, texts))`. */
  function NormalSet(texts: seq<string>): (r: set<string>)
    ensures forall k :: 0 <= k < |texts| ==> Normalize(texts[k]) in r
  {
    if texts == [] then {} else {Normalize(texts[0])} + NormalSet(texts[1..])
  }

  /** Every element of the set is the normal form of one of the texts. */
  lemma {:induction false} NormalSetWitness(texts: seq<string>, x: string) returns (k: nat)
    requires x in NormalSet(texts)
    ensures k < |texts| && x == Normalize(texts[k])
  {
    if x == Normalize(texts[0]) {
      k := 0;
    } else {
      var k' := NormalSetWitness(texts[1..], x);
      k := k' + 1;
    }
  }

  /** The stored phone field: the set of normalised matches. */
  function PhoneSet(s: string): set<string>
  {
    NormalSet(Matches(s))
  }

  /** `' '.join(nodes)`. */
  function Join(nodes: seq<string>): string
  {
    if |nodes| == 0 then ""
    else if |nodes| == 1 then nodes[0]
    else nodes[0] + " " + Join(nodes[1..])
  }

  /** The phone numbers found in a page given as its text nodes in document order. */
  function ExtractPhones(nodes: seq<string>): set<string>
  {
    PhoneSet(Join(nodes))
  }

  // ---------------------------------------------------------------------------
  // Properties
  // ---------------------------------------------------------------------------

  /** Joining two non-empty runs of nodes puts exactly one space between them. */
  lemma {:induction false} JoinAppend(a: seq<string>, b: seq<string>)
    requires |a| > 0 && |b| > 0
    ensures Join(a + b) == Join(a) + " " + Join(b)
  {
    if |a| == 1 {
      assert (a + b)[1..] == b;
    } else {
      assert (a + b)[1..] == a[1..] + b;
      JoinAppend(a[1..], b);
    }
  }

  /** A stored number is the normal form of one of the reported matches. */
  lemma PhoneSetWitness(s: string, x: string) returns (k: nat)
    requires x in PhoneSet(s)
    ensures k < |ScanFrom(s, 0)| && x == Normalize(s[ScanFrom(s, 0)[k].start..ScanFrom(s, 0)[k].end])
  {
    k := NormalSetWitness(Matches(s), x);
  }

  /** Each reported text is a well-formed shape with no digit or `.` on either side. */
  lemma MatchesAreShapes(s: string, k: nat)
    requires k < |Matches(s)|
    ensures exists p :: WellFormed(p) && Matches(s)[k] == Render(p)
    ensures BeforeOk(s, ScanFrom(s, 0)[k].start) && AfterOk(s, ScanFrom(s, 0)[k].end)
  {
    var sp := ScanFrom(s, 0)[k];
    PatternAdvancing();
    ScanSound(Pattern, s, 0, k);
    var p := MatchAtShape(s, sp.start);
  }

  /** Every stored number is the normal form of some well-formed match. */
  lemma PhoneSetShapes(s: string, x: string)
    requires x in PhoneSet(s)
    ensures exists p :: WellFormed(p) && x == Normalize(Render(p))
  {
    var k := PhoneSetWitness(s, x);
    MatchesAreShapes(s, k);
  }

  /** The phone field is empty exactly when the content holds no match at all. */
  lemma PhoneSetEmptyIff(s: string)
    ensures PhoneSet(s) == {} <==> forall p :: 0 <= p < |s| ==> MatchAt(s, p).None?
  {
    if PhoneSet(s) != {} {
      var x :| x in PhoneSet(s);
      var k := PhoneSetWitness(s, x);
      PatternAdvancing();
      ScanSound(Pattern, s, 0, k);
    }
    if p :| 0 <= p < |s| && MatchAt(s, p).Some? {
      PatternAdvancing();
      var k := ScanComplete(Pattern, s, 0, p);
      assert Normalize(Matches(s)[k]) in PhoneSet(s);
    }
  }

  /**
   * When every whitespace character of the content is a plain space, every
   * stored number is exactly ten digits.
   */
  lemma PhoneSetPlain(s: string, x: string)
    requires forall c :: c in s && IsSpace(c) ==> c == ' '
    requires x in PhoneSet(s)
    ensures |x| == 10 && AllDigits(x)
  {
    var k := PhoneSetWitness(s, x);
    var sp := ScanFrom(s, 0)[k];
    PatternAdvancing();
    ScanSound(Pattern, s, 0, k);
    var p := MatchAtShape(s, sp.start);
    SepsOccur(p);
    assert PlainSep(p.sep1) by {
      if p.sep1.Some? { SliceIn(s, sp.start, sp.end, p.sep1.value); }
    }
    assert PlainSep(p.sep2) by {
      if p.sep2.Some? { SliceIn(s, sp.start, sp.end, p.sep2.value); }
    }
    NormalizePlain(p);
  }

  lemma SliceIn(s: string, a: nat, b: nat, c: char)
    requires a <= b <= |s| && c in s[a..b]
    ensures c in s
  {
    var m :| 0 <= m < b - a && s[a..b][m] == c;
    assert s[a + m] == c;
  }

  /** The separators of a shape occur in its text. */
  lemma SepsOccur(p: Parts)
    ensures p.sep1.Some? ==> p.sep1.value in Render(p)
    ensures p.sep2.Some? ==> p.sep2.value in Render(p)
  {
  }

  /** A well-formed shape with clear surroundings is matched exactly. */
  lemma MatchAtRender(s: string, i: nat, j: nat, p: Parts)
    requires WellFormed(p) && i <= j <= |s| && s[i..j] == Render(p)
    requires BeforeOk(s, i) && AfterOk(s, j)
    ensures MatchAt(s, i) == Some(j)
  {
    ParseComplete(s, i, j, p);
  }

  lemma MatchesOne(s: string, a: nat, b: nat)
    requires a <= b <= |s| && ScanFrom(s, 0) == [Span(a, b)]
    ensures PhoneSet(s) == {Normalize(s[a..b])}
  {
    assert Matches(s) == [s[a..b]];
    assert NormalSet([s[a..b]]) == {Normalize(s[a..b])} + NormalSet([]);
  }

  lemma MatchesTwo(s: string, a: nat, b: nat, c: nat, d: nat)
    requires a <= b <= c <= d <= |s| && ScanFrom(s, 0) == [Span(a, b), Span(c, d)]
    ensures PhoneSet(s) == {Normalize(s[a..b]), Normalize(s[c..d])}
  {
    assert Matches(s) == [s[a..b], s[c..d]];
    assert [s[a..b], s[c..d]][1..] == [s[c..d]];
    assert NormalSet([s[c..d]]) == {Normalize(s[c..d])} + NormalSet([]);
  }

  /** Content that is exactly one match yields that match, normalised, and nothing else. */
  lemma WholeMatch(s: string, p: Parts)
    requires WellFormed(p) && s == Render(p)
    ensures ScanFrom(s, 0) == [Span(0, |s|)]
    ensures PhoneSet(s) == {Normalize(s)}
  {
    assert MatchAt(s, 0) == Some(|s|) by {
      assert s[0..|s|] == s;
      MatchAtRender(s, 0, |s|, p);
    }
    PatternAdvancing();
    ScanHit(Pattern, s, 0, |s|);
    assert Scan(Pattern, s, |s|) == [];
    assert s[0..|s|] == s;
    MatchesOne(s, 0, |s|);
  }

}
