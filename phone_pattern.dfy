/**
 * The phone-number pattern of the business-site scan and the normaliser
 * applied to each of its matches.
 *
 * The pattern, read left to right, is
 *
 *     (?<![\d.]) (\+0?1[\s.-]?)? \(?\d{3}\)?[\s.-]? \d{3}[\s.-]? \d{4} (?![\d.])
 *
 * Every optional piece is decided by the next character, so a recogniser that
 * never backtracks finds the same match as the backtracking regex engine;
 * `ParseComplete` is the proof that it misses no shape the pattern allows.
 */
module PhonePattern {
  import opened Wrappers

  // ---------------------------------------------------------------------------
  // Character classes (ASCII readings of `\d` and `\s`)
  // ---------------------------------------------------------------------------

  /** `\d`: an ASCII decimal digit. */
  predicate IsDigit(c: char) { '0' <= c <= '9' }

  /** `\s`: space, tab, line feed, vertical tab, form feed or carriage return. */
  predicate IsSpace(c: char) { c == ' ' || '\t' <= c <= '\r' }

  /** `[\s.-]`: the separator the pattern allows between groups. */
  predicate IsSep(c: char) { IsSpace(c) || c == '.' || c == '-' }

  /** `[\d.]`: the characters that may not touch either end of a match. */
  predicate IsGuard(c: char) { IsDigit(c) || c == '.' }

  /** `[-.() ]`: the characters the normaliser deletes one at a time. */
  predicate IsStripped(c: char) { c == '-' || c == '.' || c == '(' || c == ')' || c == ' ' }

  /** A character that can open a match: `+`, `(` or a digit. */
  predicate IsStart(c: char) { c == '+' || c == '(' || IsDigit(c) }

  predicate AllDigits(t: string) { forall k :: 0 <= k < |t| ==> IsDigit(t[k]) }

  /** `t` holds no `+`, so no country group can start inside it. */
  predicate NoPlus(t: string) { forall k :: 0 <= k < |t| ==> t[k] != '+' }

  // ---------------------------------------------------------------------------
  // The shapes the pattern admits
  // ---------------------------------------------------------------------------

  /** The country group `\+0?1[\s.-]?`: whether the `0` is there, and the separator. */
  datatype Country = Country(zero: bool, sep: Option<char>)

  /** One way of filling in every optional piece of the pattern. */
  datatype Parts = Parts(
    country: Option<Country>,
    open: bool,
    area: string,
    close: bool,
    sep1: Option<char>,
    prefix: string,
    sep2: Option<char>,
    line: string)

  function OptChar(o: Option<char>): string { if o.Some? then [o.value] else [] }

  function Flag(b: bool, c: char): string { if b then [c] else [] }

  predicate SepOk(o: Option<char>) { o.Some? ==> IsSep(o.value) }

  function CountryText(c: Country): string { "+" + Flag(c.zero, '0') + "1" + OptChar(c.sep) }

  function CountryPart(c: Option<Country>): string { if c.Some? then CountryText(c.value) else "" }

  /** `\d{3}\)?[\s.-]?`: the area code with its closing parenthesis and separator. */
  function AreaText(area: string, close: bool, sep: Option<char>): string
  {
    area + (Flag(close, ')') + OptChar(sep))
  }

  /** `\d{3}[\s.-]?`: the prefix with its separator. */
  function PrefixText(prefix: string, sep: Option<char>): string { prefix + OptChar(sep) }

  /** The text after the country group. */
  function Local(p: Parts): string
  {
    Flag(p.open, '(') + (AreaText(p.area, p.close, p.sep1) + (PrefixText(p.prefix, p.sep2) + p.line))
  }

  /** The matched text a shape stands for. */
  function Render(p: Parts): string { CountryPart(p.country) + Local(p) }

  /** The shape obeys the pattern: separators from `[\s.-]`, groups of 3, 3 and 4 digits. */
  predicate WellFormed(p: Parts)
  {
    (p.country.Some? ==> SepOk(p.country.value.sep))
    && |p.area| == 3 && AllDigits(p.area)
    && SepOk(p.sep1)
    && |p.prefix| == 3 && AllDigits(p.prefix)
    && SepOk(p.sep2)
    && |p.line| == 4 && AllDigits(p.line)
  }

  // ---------------------------------------------------------------------------
  // The recogniser: each piece reads `s` from index `k` and returns where it stopped
  // ---------------------------------------------------------------------------

  /** An optional literal character such as `\(?` or `\)?`. */
  function LitAt(s: string, k: nat, c: char): (bool, nat)
    requires k <= |s|
  {
    if k < |s| && s[k] == c then (true, k + 1) else (false, k)
  }

  /** An optional separator `[\s.-]?`. */
  function SepAt(s: string, k: nat): (Option<char>, nat)
    requires k <= |s|
  {
    if k < |s| && IsSep(s[k]) then (Some(s[k]), k + 1) else (None, k)
  }

  /** `\d{n}` at index `k`. */
  predicate DigitsAt(s: string, k: nat, n: nat)
  {
    k + n <= |s| && forall m :: k <= m < k + n ==> IsDigit(s[m])
  }

  /** The country group `\+0?1[\s.-]?`, shared by the pattern and by the normaliser. */
  function CountryAt(s: string, k: nat): (r: Option<(Country, nat)>)
    requires k <= |s|
    ensures r.Some? ==> k + 2 <= r.value.1 <= |s|
  {
    if k < |s| && s[k] == '+' then
      var (zero, k1) := LitAt(s, k + 1, '0');
      if k1 < |s| && s[k1] == '1' then
        var (sep, k2) := SepAt(s, k1 + 1);
        Some((Country(zero, sep), k2))
      else None
    else None
  }

  /** `\d{3}\)?[\s.-]?` at index `k`. */
  function AreaAt(s: string, k: nat): (r: Option<(string, bool, Option<char>, nat)>)
    requires k <= |s|
    ensures r.Some? ==> k + 3 <= r.value.3 <= |s|
  {
    if !DigitsAt(s, k, 3) then None
    else
      var (close, k1) := LitAt(s, k + 3, ')');
      var (sep, k2) := SepAt(s, k1);
      Some((s[k..k + 3], close, sep, k2))
  }

  /** `\d{3}[\s.-]?` at index `k`. */
  function PrefixAt(s: string, k: nat): (r: Option<(string, Option<char>, nat)>)
    requires k <= |s|
    ensures r.Some? ==> k + 3 <= r.value.2 <= |s|
  {
    if !DigitsAt(s, k, 3) then None
    else
      var (sep, k1) := SepAt(s, k + 3);
      Some((s[k..k + 3], sep, k1))
  }

  /** The pattern after the country group, `\(?\d{3}\)?[\s.-]?\d{3}[\s.-]?\d{4}`, from index `k`. */
  function LocalAt(s: string, k: nat, country: Option<Country>): (r: Option<(Parts, nat)>)
    requires k <= |s|
    ensures r.Some? ==> k + 10 <= r.value.1 <= |s| && r.value.0.country == country
  {
    var (open, k1) := LitAt(s, k, '(');
    match AreaAt(s, k1)
    case None => None
    case Some((area, close, sep1, k2)) =>
      match PrefixAt(s, k2)
      case None => None
      case Some((prefix, sep2, k3)) =>
        match LineAt(s, k3)
        case None => None
        case Some((line, j)) => Some((Parts(country, open, area, close, sep1, prefix, sep2, line), j))
  }

  /** `\d{4}` at index `k`. */
  function LineAt(s: string, k: nat): (r: Option<(string, nat)>)
    requires k <= |s|
    ensures r.Some? ==> r.value.1 == k + 4 <= |s|
  {
    if DigitsAt(s, k, 4) then Some((s[k..k + 4], k + 4)) else None
  }

  /**
   * The body of the pattern, without its two lookarounds, from index `i`; on
   * success the shape found and the index where it ends. The country group is
   * optional: when it does not match, the rest is tried from the same index,
   * as the regex engine does.
   */
  function ParseAt(s: string, i: nat): (r: Option<(Parts, nat)>)
    requires i <= |s|
    ensures r.Some? ==> i + 10 <= r.value.1 <= |s|
  {
    match CountryAt(s, i)
    case Some((c, k)) => LocalAt(s, k, Some(c))
    case None => LocalAt(s, i, None)
  }

  /** No digit or `.` right before index `i` (the lookbehind). */
  predicate BeforeOk(s: string, i: nat)
    requires i <= |s|
  {
    i == 0 || !IsGuard(s[i - 1])
  }

  /** No digit or `.` at index `j` (the lookahead). */
  predicate AfterOk(s: string, j: nat)
    requires j <= |s|
  {
    j == |s| || !IsGuard(s[j])
  }

  /** Where the match that starts at `i` ends, if the whole pattern matches there. */
  function MatchAt(s: string, i: nat): (r: Option<nat>)
    requires i <= |s|
    ensures r.Some? ==> i + 10 <= r.value <= |s| && BeforeOk(s, i) && AfterOk(s, r.value)
  {
    if !BeforeOk(s, i) then None
    else match ParseAt(s, i)
      case None => None
      case Some((_, j)) => if AfterOk(s, j) then Some(j) else None
  }

  // ---------------------------------------------------------------------------
  // Slices
  // ---------------------------------------------------------------------------

  /** Two adjacent slices that spell `x` and `y` spell `x + y` together. */
  lemma Concat(s: string, a: nat, b: nat, c: nat, x: string, y: string)
    requires a <= b <= c <= |s| && s[a..b] == x && s[b..c] == y
    ensures s[a..c] == x + y
  {
    assert s[a..c] == s[a..b] + s[b..c];
  }

  /** A slice that spells `x + y` spells `x`, then `y`. */
  lemma SliceCons(s: string, a: nat, c: nat, x: string, y: string)
    requires a <= c <= |s| && s[a..c] == x + y
    ensures a + |x| <= c && s[a..a + |x|] == x && s[a + |x|..c] == y
  {
    assert s[a..a + |x|] == s[a..c][..|x|];
    assert s[a + |x|..c] == s[a..c][|x|..];
  }

  /** The first character of a non-empty slice. */
  lemma FirstChar(s: string, a: nat, c: nat, x: string)
    requires a < c <= |s| && s[a..c] == x
    ensures s[a] == x[0]
  {
    assert s[a] == s[a..c][0];
  }

  // ---------------------------------------------------------------------------
  // Soundness of the recogniser: what it returns spells the text it consumed
  // ---------------------------------------------------------------------------

  lemma LitSound(s: string, k: nat, c: char)
    requires k <= |s|
    ensures k + |Flag(LitAt(s, k, c).0, c)| == LitAt(s, k, c).1
    ensures s[k..LitAt(s, k, c).1] == Flag(LitAt(s, k, c).0, c)
  {
  }

  lemma SepSound(s: string, k: nat)
    requires k <= |s|
    ensures SepOk(SepAt(s, k).0) && s[k..SepAt(s, k).1] == OptChar(SepAt(s, k).0)
  {
  }

  lemma DigitsSound(s: string, k: nat, n: nat)
    requires DigitsAt(s, k, n)
    ensures |s[k..k + n]| == n && AllDigits(s[k..k + n])
  {
  }

  lemma CountrySound(s: string, k: nat)
    requires k <= |s| && CountryAt(s, k).Some?
    ensures SepOk(CountryAt(s, k).value.0.sep)
    ensures s[k..CountryAt(s, k).value.1] == CountryText(CountryAt(s, k).value.0)
  {
    var c := CountryAt(s, k).value.0;
    var e := CountryAt(s, k).value.1;
    var k1 := LitAt(s, k + 1, '0').1;
    assert s[k..k + 1] == "+";
    assert s[k + 1..k1] == Flag(c.zero, '0') by { LitSound(s, k + 1, '0'); }
    assert s[k1..k1 + 1] == "1";
    assert SepOk(c.sep) && s[k1 + 1..e] == OptChar(c.sep) by { SepSound(s, k1 + 1); }
    Concat(s, k, k + 1, k1, "+", Flag(c.zero, '0'));
    Concat(s, k, k1, k1 + 1, "+" + Flag(c.zero, '0'), "1");
    Concat(s, k, k1 + 1, e, "+" + Flag(c.zero, '0') + "1", OptChar(c.sep));
  }

  lemma AreaSound(s: string, k: nat)
    requires k <= |s| && AreaAt(s, k).Some?
    ensures var (area, close, sep, e) := AreaAt(s, k).value;
      |area| == 3 && AllDigits(area) && SepOk(sep) && s[k..e] == AreaText(area, close, sep)
  {
    var (area, close, sep, e) := AreaAt(s, k).value;
    var k1 := LitAt(s, k + 3, ')').1;
    DigitsSound(s, k, 3);
    LitSound(s, k + 3, ')');
    SepSound(s, k1);
    Concat(s, k + 3, k1, e, Flag(close, ')'), OptChar(sep));
    Concat(s, k, k + 3, e, area, Flag(close, ')') + OptChar(sep));
  }

  lemma PrefixSound(s: string, k: nat)
    requires k <= |s| && PrefixAt(s, k).Some?
    ensures var (prefix, sep, e) := PrefixAt(s, k).value;
      |prefix| == 3 && AllDigits(prefix) && SepOk(sep) && s[k..e] == PrefixText(prefix, sep)
  {
    var (prefix, sep, e) := PrefixAt(s, k).value;
    DigitsSound(s, k, 3);
    SepSound(s, k + 3);
    Concat(s, k, k + 3, e, prefix, OptChar(sep));
  }

  lemma LocalSound(s: string, k0: nat, country: Option<Country>)
    requires k0 <= |s| && LocalAt(s, k0, country).Some?
    ensures var (p, j) := LocalAt(s, k0, country).value;
      |p.area| == 3 && AllDigits(p.area) && SepOk(p.sep1)
      && |p.prefix| == 3 && AllDigits(p.prefix) && SepOk(p.sep2)
      && |p.line| == 4 && AllDigits(p.line)
      && s[k0..j] == Local(p)
  {
    var (p, j) := LocalAt(s, k0, country).value;
    var k1 := LitAt(s, k0, '(').1;
    var k2 := AreaAt(s, k1).value.3;
    var k3 := PrefixAt(s, k2).value.2;
    LitSound(s, k0, '(');
    AreaSound(s, k1);
    PrefixSound(s, k2);
    DigitsSound(s, k3, 4);
    assert p.line == s[k3..j];
    var tail := PrefixText(p.prefix, p.sep2) + p.line;
    var area := AreaText(p.area, p.close, p.sep1);
    Concat(s, k2, k3, j, PrefixText(p.prefix, p.sep2), p.line);
    Concat(s, k1, k2, j, area, tail);
    Concat(s, k0, k1, j, Flag(p.open, '('), area + tail);
  }

  /** What the recogniser returns is a well-formed shape, and it spells the text it consumed. */
  lemma ParseSound(s: string, i: nat)
    requires i <= |s| && ParseAt(s, i).Some?
    ensures WellFormed(ParseAt(s, i).value.0)
    ensures s[i..ParseAt(s, i).value.1] == Render(ParseAt(s, i).value.0)
  {
    match CountryAt(s, i)
    case Some((c, k0)) => ParseSoundCountry(s, i, c, k0);
    case None => ParseSoundLocal(s, i);
  }

  lemma ParseSoundCountry(s: string, i: nat, c: Country, k0: nat)
    requires i <= k0 <= |s| && CountryAt(s, i) == Some((c, k0)) && LocalAt(s, k0, Some(c)).Some?
    ensures WellFormed(LocalAt(s, k0, Some(c)).value.0)
    ensures s[i..LocalAt(s, k0, Some(c)).value.1] == Render(LocalAt(s, k0, Some(c)).value.0)
  {
    var (p, j) := LocalAt(s, k0, Some(c)).value;
    CountrySound(s, i);
    LocalSound(s, k0, Some(c));
    Concat(s, i, k0, j, CountryPart(p.country), Local(p));
  }

  lemma ParseSoundLocal(s: string, i: nat)
    requires i <= |s| && LocalAt(s, i, None).Some?
    ensures WellFormed(LocalAt(s, i, None).value.0)
    ensures s[i..LocalAt(s, i, None).value.1] == Render(LocalAt(s, i, None).value.0)
  {
    var (p, j) := LocalAt(s, i, None).value;
    LocalSound(s, i, None);
    assert Render(p) == Local(p);
  }

  // ---------------------------------------------------------------------------
  // Completeness of the recogniser: it finds every shape the pattern allows
  // ---------------------------------------------------------------------------

  /*
   * Each piece is stated "onto" the text that follows it: when `s[k..j]`
   * spells the piece followed by `rest`, and the first character of `rest`
   * rules out the piece's optional tail, the recogniser returns the piece and
   * stops where `rest` begins.
   */

  lemma LitComplete(s: string, k: nat, j: nat, b: bool, c: char, rest: string)
    requires k <= j <= |s| && s[k..j] == Flag(b, c) + rest
    requires !b ==> |rest| > 0 && rest[0] != c
    ensures LitAt(s, k, c) == (b, k + |Flag(b, c)|) && s[k + |Flag(b, c)|..j] == rest
  {
    SliceCons(s, k, j, Flag(b, c), rest);
    FirstChar(s, k, j, Flag(b, c) + rest);
  }

  lemma SepComplete(s: string, k: nat, j: nat, o: Option<char>, rest: string)
    requires SepOk(o) && k <= j <= |s| && s[k..j] == OptChar(o) + rest
    requires o.None? ==> |rest| > 0 && !IsSep(rest[0])
    ensures SepAt(s, k) == (o, k + |OptChar(o)|) && s[k + |OptChar(o)|..j] == rest
  {
    SliceCons(s, k, j, OptChar(o), rest);
    FirstChar(s, k, j, OptChar(o) + rest);
  }

  lemma DigitsComplete(s: string, k: nat, d: string)
    requires AllDigits(d) && k + |d| <= |s| && s[k..k + |d|] == d
    ensures DigitsAt(s, k, |d|)
  {
    forall m | k <= m < k + |d| ensures IsDigit(s[m]) {
      assert s[m] == s[k..k + |d|][m - k];
    }
  }

  lemma CountryComplete(s: string, k: nat, j: nat, c: Country, rest: string)
    requires SepOk(c.sep) && k <= j <= |s| && s[k..j] == CountryText(c) + rest
    requires c.sep.None? ==> |rest| > 0 && !IsSep(rest[0])
    ensures CountryAt(s, k) == Some((c, k + |CountryText(c)|)) && s[k + |CountryText(c)|..j] == rest
  {
    var z := Flag(c.zero, '0');
    var k1 := k + 1 + |z|;
    var e := k1 + 1 + |OptChar(c.sep)|;
    assert |CountryText(c)| == e - k;
    assert CountryText(c) + rest == "+" + (z + ("1" + (OptChar(c.sep) + rest)));
    CountryHead(s, k, j, c.zero, OptChar(c.sep) + rest);
    assert SepAt(s, k1 + 1) == (c.sep, e) && s[e..j] == rest by {
      SepComplete(s, k1 + 1, j, c.sep, rest);
    }
  }

  /** The `+`, the optional `0` and the `1` of the country group. */
  lemma CountryHead(s: string, k: nat, j: nat, zero: bool, r: string)
    requires k <= j <= |s| && s[k..j] == "+" + (Flag(zero, '0') + ("1" + r))
    ensures k + 2 + |Flag(zero, '0')| <= j
    ensures s[k] == '+' && LitAt(s, k + 1, '0') == (zero, k + 1 + |Flag(zero, '0')|)
    ensures s[k + 1 + |Flag(zero, '0')|] == '1' && s[k + 2 + |Flag(zero, '0')|..j] == r
  {
    var z := Flag(zero, '0');
    var k1 := k + 1 + |z|;
    assert s[k] == '+' && s[k + 1..j] == z + ("1" + r) by {
      LitComplete(s, k, j, true, '+', z + ("1" + r));
    }
    assert LitAt(s, k + 1, '0') == (zero, k1) && s[k1..j] == "1" + r by {
      LitComplete(s, k + 1, j, zero, '0', "1" + r);
    }
    assert s[k1] == '1' && s[k1 + 1..j] == r by {
      LitComplete(s, k1, j, true, '1', r);
    }
  }

  lemma AreaComplete(s: string, k: nat, j: nat, area: string, close: bool, sep: Option<char>, rest: string)
    requires |area| == 3 && AllDigits(area) && SepOk(sep)
    requires k <= j <= |s| && s[k..j] == AreaText(area, close, sep) + rest
    requires |rest| > 0 && IsDigit(rest[0])
    ensures AreaAt(s, k) == Some((area, close, sep, k + |AreaText(area, close, sep)|))
    ensures s[k + |AreaText(area, close, sep)|..j] == rest
  {
    var tail := Flag(close, ')') + (OptChar(sep) + rest);
    assert AreaText(area, close, sep) + rest == area + tail;
    SliceCons(s, k, j, area, tail);
    DigitsComplete(s, k, area);
    assert (OptChar(sep) + rest)[0] != ')';
    LitComplete(s, k + 3, j, close, ')', OptChar(sep) + rest);
    SepComplete(s, k + 3 + |Flag(close, ')')|, j, sep, rest);
  }

  lemma PrefixComplete(s: string, k: nat, j: nat, prefix: string, sep: Option<char>, rest: string)
    requires |prefix| == 3 && AllDigits(prefix) && SepOk(sep)
    requires k <= j <= |s| && s[k..j] == PrefixText(prefix, sep) + rest
    requires |rest| > 0 && IsDigit(rest[0])
    ensures PrefixAt(s, k) == Some((prefix, sep, k + |PrefixText(prefix, sep)|))
    ensures s[k + |PrefixText(prefix, sep)|..j] == rest
  {
    assert PrefixText(prefix, sep) + rest == prefix + (OptChar(sep) + rest);
    SliceCons(s, k, j, prefix, OptChar(sep) + rest);
    DigitsComplete(s, k, prefix);
    SepComplete(s, k + 3, j, sep, rest);
  }

  /** The pieces after the country group are found whole, from the index where they start. */
  lemma LocalComplete(s: string, k0: nat, j: nat, p: Parts)
    requires WellFormed(p) && k0 <= j <= |s| && s[k0..j] == Local(p)
    ensures LocalAt(s, k0, p.country) == Some((p, j))
  {
    var rest := AreaText(p.area, p.close, p.sep1) + (PrefixText(p.prefix, p.sep2) + p.line);
    var k1 := k0 + |Flag(p.open, '(')|;
    assert rest[0] == p.area[0];
    LitComplete(s, k0, j, p.open, '(', rest);
    var k2, k3 := AreaOnwards(s, k1, j, p);
    LocalAtStages(s, k0, p, k1, k2, k3, j);
  }

  /** The area group and everything after it are found whole. */
  lemma AreaOnwards(s: string, k1: nat, j: nat, p: Parts) returns (k2: nat, k3: nat)
    requires WellFormed(p) && k1 <= j <= |s|
    requires s[k1..j] == AreaText(p.area, p.close, p.sep1) + (PrefixText(p.prefix, p.sep2) + p.line)
    ensures k1 <= k2 <= k3 <= j
    ensures AreaAt(s, k1) == Some((p.area, p.close, p.sep1, k2))
    ensures PrefixAt(s, k2) == Some((p.prefix, p.sep2, k3))
    ensures LineAt(s, k3) == Some((p.line, j))
  {
    var rest := PrefixText(p.prefix, p.sep2) + p.line;
    assert rest[0] == p.prefix[0];
    AreaComplete(s, k1, j, p.area, p.close, p.sep1, rest);
    k2 := k1 + |AreaText(p.area, p.close, p.sep1)|;
    k3 := PrefixOnwards(s, k2, j, p);
  }

  /** The prefix group and the line number are found whole. */
  lemma PrefixOnwards(s: string, k2: nat, j: nat, p: Parts) returns (k3: nat)
    requires WellFormed(p) && k2 <= j <= |s|
    requires s[k2..j] == PrefixText(p.prefix, p.sep2) + p.line
    ensures k2 <= k3 <= j
    ensures PrefixAt(s, k2) == Some((p.prefix, p.sep2, k3))
    ensures LineAt(s, k3) == Some((p.line, j))
  {
    PrefixComplete(s, k2, j, p.prefix, p.sep2, p.line);
    k3 := k2 + |PrefixText(p.prefix, p.sep2)|;
    DigitsComplete(s, k3, p.line);
  }

  /** The recogniser after the country group, once each of its stages is known. */
  lemma LocalAtStages(s: string, k0: nat, p: Parts, k1: nat, k2: nat, k3: nat, j: nat)
    requires k0 <= k1 <= k2 <= k3 <= |s|
    requires LitAt(s, k0, '(') == (p.open, k1)
    requires AreaAt(s, k1) == Some((p.area, p.close, p.sep1, k2))
    requires PrefixAt(s, k2) == Some((p.prefix, p.sep2, k3))
    requires LineAt(s, k3) == Some((p.line, j))
    ensures LocalAt(s, k0, p.country) == Some((p, j))
  {
  }

  /** The text after the country group opens with `(` or a digit. */
  lemma LocalStart(p: Parts)
    requires WellFormed(p)
    ensures |Local(p)| > 0 && (Local(p)[0] == '(' || IsDigit(Local(p)[0]))
  {
    if !p.open { assert Local(p)[0] == p.area[0]; }
  }

  /**
   * The recogniser finds every shape the pattern allows, whatever follows it.
   * Its result is a function of the text, so no other shape can spell a
   * prefix of the same text: the match at an index is unique.
   */
  lemma ParseComplete(s: string, i: nat, j: nat, p: Parts)
    requires WellFormed(p) && i <= j <= |s| && s[i..j] == Render(p)
    ensures ParseAt(s, i) == Some((p, j))
  {
    if p.country.Some? {
      ParseCompleteCountry(s, i, j, p);
    } else {
      ParseCompleteLocal(s, i, j, p);
    }
  }

  lemma ParseCompleteCountry(s: string, i: nat, j: nat, p: Parts)
    requires WellFormed(p) && i <= j <= |s| && s[i..j] == Render(p)
    requires p.country.Some?
    ensures ParseAt(s, i) == Some((p, j))
  {
    var c := p.country.value;
    var k := i + |CountryText(c)|;
    assert j == k + |Local(p)| by { RenderLength(p); }
    assert CountryAt(s, i) == Some((c, k)) && s[k..j] == Local(p) by {
      LocalStart(p);
      CountryComplete(s, i, j, c, Local(p));
    }
    assert LocalAt(s, k, p.country) == Some((p, j)) by { LocalComplete(s, k, j, p); }
    ParseAtStages(s, i, p, k, j);
  }

  lemma ParseCompleteLocal(s: string, i: nat, j: nat, p: Parts)
    requires WellFormed(p) && i <= j <= |s| && s[i..j] == Render(p)
    requires p.country.None?
    ensures ParseAt(s, i) == Some((p, j))
  {
    LocalStart(p);
    assert Render(p) == Local(p);
    FirstChar(s, i, j, Local(p));
    LocalComplete(s, i, j, p);
    ParseAtStages(s, i, p, i, j);
  }

  lemma RenderLength(p: Parts)
    ensures |Render(p)| == |CountryPart(p.country)| + |Local(p)|
  {
  }

  /** The recogniser, once the country group and the rest are known. */
  lemma ParseAtStages(s: string, i: nat, p: Parts, k: nat, j: nat)
    requires i <= k <= |s|
    requires p.country.Some? ==> CountryAt(s, i) == Some((p.country.value, k))
    requires p.country.None? ==> CountryAt(s, i) == None && k == i
    requires LocalAt(s, k, p.country) == Some((p, j))
    ensures ParseAt(s, i) == Some((p, j))
  {
  }

  /** A match can only open with `+`, `(` or a digit. */
  lemma ParseNeedsStart(s: string, i: nat)
    requires i <= |s| && (i == |s| || !IsStart(s[i]))
    ensures ParseAt(s, i) == None
  {
  }

  /** No match starts right after a digit. */
  lemma AfterDigit(s: string, p: nat)
    requires 0 < p <= |s| && IsDigit(s[p - 1])
    ensures MatchAt(s, p) == None
  {
  }

  /**
   * The whole pattern, stated on shapes: it matches from `i` to `j` exactly
   * when neither end touches a digit or `.` and the text between is a
   * well-formed shape.
   */
  lemma MatchAtIff(s: string, i: nat, j: nat)
    requires i <= j <= |s|
    ensures MatchAt(s, i) == Some(j) <==>
      BeforeOk(s, i) && AfterOk(s, j) && exists p :: WellFormed(p) && s[i..j] == Render(p)
  {
    if MatchAt(s, i) == Some(j) {
      var p := MatchAtShape(s, i);
    }
    if BeforeOk(s, i) && AfterOk(s, j) && exists p :: WellFormed(p) && s[i..j] == Render(p) {
      var p :| WellFormed(p) && s[i..j] == Render(p);
      ParseComplete(s, i, j, p);
    }
  }

  /** The text of a match is the rendering of a well-formed shape. */
  lemma MatchAtShape(s: string, i: nat) returns (p: Parts)
    requires i <= |s| && MatchAt(s, i).Some?
    ensures WellFormed(p) && s[i..MatchAt(s, i).value] == Render(p)
  {
    ParseSound(s, i);
    p := ParseAt(s, i).value.0;
  }

  // ---------------------------------------------------------------------------
  // The normaliser `re.sub('(\+0?1[\s.-]?)|[-.() ]', '', x)`
  // ---------------------------------------------------------------------------

  /**
   * Left to right: a country group is deleted whole, each of `-`, `.`, `(`,
   * `)` and space is deleted, every other character is kept.
   */
  function Normalize(t: string): (r: string)
    ensures |r| <= |t|
    decreases |t|
  {
    if t == [] then []
    else match CountryAt(t, 0)
      case Some((_, k)) => Normalize(t[k..])
      case None => if IsStripped(t[0]) then Normalize(t[1..]) else [t[0]] + Normalize(t[1..])
  }

  /** No `-`, `.`, `(`, `)` or space survives normalisation. */
  lemma {:induction false} NormalizeStrips(t: string)
    ensures forall k :: 0 <= k < |Normalize(t)| ==> !IsStripped(Normalize(t)[k])
    decreases |t|
  {
    if t != [] {
      match CountryAt(t, 0)
      case Some((_, k)) => NormalizeStrips(t[k..]);
      case None => NormalizeStrips(t[1..]);
    }
  }

  /** The characters of `t` other than `-`, `.`, `(`, `)` and space, in order. */
  function Kept(t: string): string
  {
    if t == [] then [] else (if IsStripped(t[0]) then [] else [t[0]]) + Kept(t[1..])
  }

  lemma AppendAssoc(a: string, b: string, c: string)
    ensures (a + b) + c == a + (b + c)
  {
  }

  lemma {:induction false} KeptDigits(d: string)
    requires AllDigits(d)
    ensures Kept(d) == d
  {
    if d != [] { KeptDigits(d[1..]); }
  }

  lemma {:induction false} KeptAppend(a: string, b: string)
    ensures Kept(a + b) == Kept(a) + Kept(b)
  {
    if a == [] {
      assert a + b == b;
    } else {
      assert (a + b)[0] == a[0];
      assert (a + b)[1..] == a[1..] + b;
      KeptAppend(a[1..], b);
      AppendAssoc(if IsStripped(a[0]) then [] else [a[0]], Kept(a[1..]), Kept(b));
    }
  }

  /** Without a `+` no country group can start, so normalising is plain deletion. */
  lemma {:induction false} NormalizeNoPlus(t: string)
    requires NoPlus(t)
    ensures Normalize(t) == Kept(t)
  {
    if t != [] {
      assert CountryAt(t, 0) == None;
      NormalizeNoPlus(t[1..]);
    }
  }

  /** What is kept of the part of a match after its country group. */
  lemma KeptLocal(p: Parts)
    requires WellFormed(p)
    ensures Kept(Local(p)) == p.area + Kept(OptChar(p.sep1)) + (p.prefix + Kept(OptChar(p.sep2)) + p.line)
  {
    var area := AreaText(p.area, p.close, p.sep1);
    var prefix := PrefixText(p.prefix, p.sep2);
    assert Kept(area) == p.area + Kept(OptChar(p.sep1)) by {
      KeptAppend(p.area, Flag(p.close, ')') + OptChar(p.sep1));
      KeptAppend(Flag(p.close, ')'), OptChar(p.sep1));
      KeptDigits(p.area);
    }
    assert Kept(prefix) == p.prefix + Kept(OptChar(p.sep2)) by {
      KeptAppend(p.prefix, OptChar(p.sep2));
      KeptDigits(p.prefix);
    }
    KeptDigits(p.line);
    KeptAppend(prefix, p.line);
    KeptAppend(area, prefix + p.line);
    KeptAppend(Flag(p.open, '('), area + (prefix + p.line));
  }

  /** No `+` occurs after the country group of a match. */
  lemma LocalNoPlus(p: Parts)
    requires WellFormed(p)
    ensures NoPlus(Local(p))
  {
    var area := AreaText(p.area, p.close, p.sep1);
    var prefix := PrefixText(p.prefix, p.sep2);
    assert NoPlus(area) by { NoPlusAppend(p.area, Flag(p.close, ')') + OptChar(p.sep1)); }
    assert NoPlus(prefix) by { NoPlusAppend(p.prefix, OptChar(p.sep2)); }
    NoPlusAppend(prefix, p.line);
    NoPlusAppend(area, prefix + p.line);
    NoPlusAppend(Flag(p.open, '('), area + (prefix + p.line));
  }

  lemma NoPlusAppend(a: string, b: string)
    requires NoPlus(a) && NoPlus(b)
    ensures NoPlus(a + b)
  {
    forall k | 0 <= k < |a + b| ensures (a + b)[k] != '+' {
      if k >= |a| { assert (a + b)[k] == b[k - |a|]; }
    }
  }

  /** The country group at the front of a match is deleted whole. */
  lemma NormalizeDropsCountry(p: Parts)
    requires WellFormed(p)
    ensures Normalize(Render(p)) == Normalize(Local(p))
  {
    var t := Render(p);
    LocalStart(p);
    if p.country.Some? {
      assert t[0..|t|] == t;
      CountryComplete(t, 0, |t|, p.country.value, Local(p));
      assert t[|CountryText(p.country.value)|..] == Local(p);
    } else {
      assert t == Local(p);
    }
  }

  /**
   * Normalising a match deletes its country group, its parentheses and every
   * separator that is a space, `.` or `-`, and keeps everything else: the ten
   * digits in order and any other whitespace separator.
   */
  lemma NormalizeRender(p: Parts)
    requires WellFormed(p)
    ensures Normalize(Render(p)) ==
      p.area + Kept(OptChar(p.sep1)) + (p.prefix + Kept(OptChar(p.sep2)) + p.line)
  {
    NormalizeDropsCountry(p);
    LocalNoPlus(p);
    NormalizeNoPlus(Local(p));
    KeptLocal(p);
  }

  /** A separator the normaliser removes: absent, a space, `.` or `-`. */
  predicate PlainSep(o: Option<char>) { o.Some? ==> o.value == ' ' || o.value == '.' || o.value == '-' }

  /** With plain separators a match normalises to exactly its ten digits. */
  lemma NormalizePlain(p: Parts)
    requires WellFormed(p) && PlainSep(p.sep1) && PlainSep(p.sep2)
    ensures Normalize(Render(p)) == p.area + p.prefix + p.line
    ensures |Normalize(Render(p))| == 10 && AllDigits(Normalize(Render(p)))
  {
    NormalizeRender(p);
    PlainSepKept(p.sep1);
    PlainSepKept(p.sep2);
    TenDigits(p.area, p.prefix, p.line);
  }

  lemma PlainSepKept(o: Option<char>)
    requires PlainSep(o)
    ensures Kept(OptChar(o)) == []
  {
  }

  lemma TenDigits(a: string, b: string, c: string)
    requires |a| == 3 && |b| == 3 && |c| == 4 && AllDigits(a) && AllDigits(b) && AllDigits(c)
    ensures a + [] + (b + [] + c) == a + b + c
    ensures |a + b + c| == 10 && AllDigits(a + b + c)
  {
    forall k | 0 <= k < 10 ensures IsDigit((a + b + c)[k]) {
      if k < 3 { assert (a + b + c)[k] == a[k]; }
      else if k < 6 { assert (a + b + c)[k] == b[k - 3]; }
      else { assert (a + b + c)[k] == c[k - 6]; }
    }
  }
}
