/**
 * The opponent field of a game ("@SAC", "vs LAC", ...) and what
 * `DatabaseService#parse_opponent` makes of it: strip the text, take the
 * leftmost match of the case-insensitive pattern `(@|vs)\s?([A-Z]{2,3})`,
 * and return whether the matched prefix is literally lower-case "vs"
 * (at home) together with the captured letters exactly as written.
 */
module OpponentParser {
  import opened Wrappers
  import opened Numerals

  /** Whitespace that `String#strip` removes from either end. */
  predicate IsStripSpace(c: char) {
    IsSpace(c) || c == '\0'
  }

  /** `[A-Z]` under the case-insensitive flag. */
  predicate IsLetter(c: char) {
    ('A' <= c <= 'Z') || ('a' <= c <= 'z')
  }

  datatype Opponent = Opponent(atHome: bool, code: string)

  // ---------------------------------------------------------------------
  // Strip

  function TrimStart(s: string): string {
    if s != [] && IsStripSpace(s[0]) then TrimStart(s[1..]) else s
  }

  function TrimEnd(s: string): string {
    if s != [] && IsStripSpace(s[|s| - 1]) then TrimEnd(s[..|s| - 1]) else s
  }

  /** `TrimStart` removes the longest whitespace prefix. */
  lemma {:induction false} TrimStartIsSuffix(s: string)
    ensures var r := TrimStart(s);
            && |r| <= |s| && r == s[|s| - |r|..]
            && (forall k :: 0 <= k < |s| - |r| ==> IsStripSpace(s[k]))
            && (r != [] ==> !IsStripSpace(r[0]))
    decreases |s|
  {
    if s != [] && IsStripSpace(s[0]) {
      TrimStartIsSuffix(s[1..]);
    }
  }

  /** `TrimEnd` removes the longest whitespace suffix. */
  lemma {:induction false} TrimEndIsPrefix(s: string)
    ensures var r := TrimEnd(s);
            && |r| <= |s| && r == s[..|r|]
            && (forall k :: |r| <= k < |s| ==> IsStripSpace(s[k]))
            && (r != [] ==> !IsStripSpace(r[|r| - 1]))
    decreases |s|
  {
    if s != [] && IsStripSpace(s[|s| - 1]) {
      TrimEndIsPrefix(s[..|s| - 1]);
    }
  }

  /** `String#strip`: the text without its leading and trailing whitespace. */
  function Strip(s: string): (r: string)
    ensures |r| <= |s|
  {
    TrimStartIsSuffix(s);
    TrimEndIsPrefix(TrimStart(s));
    TrimEnd(TrimStart(s))
  }

  // ---------------------------------------------------------------------
  // What the pattern matches

  /**
   * One way the pattern can match `s`: at `start`, a prefix of `prefix`
   * characters (1 for "@", 2 for "vs" in any case), then `space` (0 or 1)
   * whitespace characters, then `letters` (2 or 3) letters.
   */
  datatype Match = Match(start: nat, prefix: nat, space: nat, letters: nat)
  {
    function LettersStart(): nat { start + prefix + space }
    function End(): nat { start + prefix + space + letters }
  }

  predicate PrefixAt(s: string, i: nat, p: nat) {
    || (p == 1 && i < |s| && s[i] == '@')
    || (p == 2 && i + 1 < |s| && (s[i] == 'v' || s[i] == 'V') && (s[i + 1] == 's' || s[i + 1] == 'S'))
  }

  predicate SpaceAt(s: string, j: nat, w: nat) {
    || (w == 0 && j <= |s|)
    || (w == 1 && j < |s| && IsSpace(s[j]))
  }

  predicate LettersAt(s: string, j: nat, n: nat) {
    (n == 2 || n == 3) && j + n <= |s| && forall k :: j <= k < j + n ==> IsLetter(s[k])
  }

  /** A match lies inside the text and spans three to six characters. */
  predicate IsMatch(s: string, m: Match): (r: bool)
    ensures r ==> m.End() <= |s| && m.start + 3 <= m.End() <= m.start + 6
  {
    && PrefixAt(s, m.start, m.prefix)
    && SpaceAt(s, m.start + m.prefix, m.space)
    && LettersAt(s, m.LettersStart(), m.letters)
  }

  /**
   * The order in which a backtracking matcher tries the choices at one
   * position: first with the whitespace, then without it, and within each
   * first three letters, then two. A higher rank is tried earlier.
   */
  function Rank(m: Match): int {
    2 * m.space + m.letters
  }

  /** `m` is the match the regex engine reports: leftmost, then first tried. */
  ghost predicate IsRegexMatch(s: string, m: Match): (r: bool)
    ensures r ==> forall m' :: IsMatch(s, m') && m' != m ==> m.start < m'.start || Rank(m') < Rank(m)
  {
    && IsMatch(s, m)
    && (forall m' :: IsMatch(s, m') ==> m.start <= m'.start)
    && (forall m' :: IsMatch(s, m') && m'.start == m.start ==> Rank(m') <= Rank(m))
  }

  // ---------------------------------------------------------------------
  // The scanner

  /** The number of letters at `j`, counting at most three. */
  function LetterRun(s: string, j: nat): (n: nat)
    requires j <= |s|
    ensures n <= 3 && j + n <= |s|
    ensures forall k :: j <= k < j + n ==> IsLetter(s[k])
    ensures n < 3 ==> j + n == |s| || !IsLetter(s[j + n])
  {
    if j < |s| && IsLetter(s[j]) then
      if j + 1 < |s| && IsLetter(s[j + 1]) then
        if j + 2 < |s| && IsLetter(s[j + 2]) then 3 else 2
      else 1
    else 0
  }

  /** The match tried first at position `i`, if there is one. */
  function MatchAt(s: string, i: nat): (r: Option<Match>)
    ensures r.Some? ==> IsMatch(s, r.value) && r.value.start == i
    ensures r.Some? ==> forall m :: IsMatch(s, m) && m.start == i ==> Rank(m) <= Rank(r.value)
    ensures r.None? ==> forall m :: IsMatch(s, m) ==> m.start != i
  {
    var p := if i < |s| && s[i] == '@' then 1
             else if i + 1 < |s| && (s[i] == 'v' || s[i] == 'V') && (s[i + 1] == 's' || s[i + 1] == 'S') then 2
             else 0;
    if p == 0 then None
    else
      var w := if i + p < |s| && IsSpace(s[i + p]) then 1 else 0;
      var n := LetterRun(s, i + p + w);
      if n >= 2 then Some(Match(i, p, w, n)) else None
  }

  /** The leftmost match starting at or after `i`. */
  function FindMatchFrom(s: string, i: nat): (r: Option<Match>)
    ensures r.Some? ==> IsMatch(s, r.value) && i <= r.value.start
    ensures r.Some? ==> forall m :: IsMatch(s, m) && i <= m.start ==> r.value.start <= m.start
    ensures r.Some? ==> forall m :: IsMatch(s, m) && m.start == r.value.start ==> Rank(m) <= Rank(r.value)
    ensures r.None? ==> forall m :: IsMatch(s, m) ==> m.start < i
    decreases |s| - i
  {
    if i >= |s| then None
    else match MatchAt(s, i)
      case Some(m) => Some(m)
      case None => FindMatchFrom(s, i + 1)
  }

  function FindMatch(s: string): (r: Option<Match>)
    ensures r.Some? ==> IsRegexMatch(s, r.value)
    ensures r.None? ==> forall m :: !IsMatch(s, m)
  {
    FindMatchFrom(s, 0)
  }

  /** The `[at_home, opponent]` pair a match yields. */
  function Captures(s: string, m: Match): (o: Opponent)
    requires IsMatch(s, m)
    ensures |o.code| == m.letters
    ensures forall k :: 0 <= k < |o.code| ==> IsLetter(o.code[k])
    ensures o.atHome <==> m.prefix == 2 && s[m.start] == 'v' && s[m.start + 1] == 's'
  {
    PrefixIsVs(s, m);
    Opponent(s[m.start..m.start + m.prefix] == "vs", s[m.LettersStart()..m.End()])
  }

  /** The captured prefix is "vs" exactly when it has two characters, 'v' then 's'. */
  lemma PrefixIsVs(s: string, m: Match)
    requires IsMatch(s, m)
    ensures s[m.start..m.start + m.prefix] == "vs" <==> m.prefix == 2 && s[m.start] == 'v' && s[m.start + 1] == 's'
  {
    var t := s[m.start..m.start + m.prefix];
    if m.prefix == 2 {
      assert t[0] == s[m.start] && t[1] == s[m.start + 1];
    } else {
      assert |t| != |"vs"|;
    }
  }

  /** `parse_opponent`; `None` where `parse_opponent` raises. */
  function ParseOpponent(raw: string): (r: Option<Opponent>)
    ensures r.Some? ==> 2 <= |r.value.code| <= 3
    ensures r.Some? ==> forall k :: 0 <= k < |r.value.code| ==> IsLetter(r.value.code[k])
  {
    var s := Strip(raw);
    var found := FindMatch(s);
    if found.None? then None else Some(Captures(s, found.value))
  }

  // ---------------------------------------------------------------------
  // Properties

  /** The regex engine's choice is determined: there is at most one. */
  lemma RegexMatchUnique(s: string, m1: Match, m2: Match)
    requires IsRegexMatch(s, m1) && IsRegexMatch(s, m2)
    ensures m1 == m2
  {
    assert m1.start == m2.start;
    assert Rank(m1) == Rank(m2);
  }

  /**
   * `ParseOpponent` yields exactly the captures of the match the regex
   * engine reports on the stripped text.
   */
  lemma ParseOpponentIsRegexMatch(raw: string, m: Match)
    requires IsRegexMatch(Strip(raw), m)
    ensures ParseOpponent(raw) == Some(Captures(Strip(raw), m))
  {
    var s := Strip(raw);
    assert FindMatch(s).Some?;
    RegexMatchUnique(s, FindMatch(s).value, m);
  }

  /** Parsing fails exactly when the pattern matches nowhere in the stripped text. */
  lemma ParseOpponentFails(raw: string)
    ensures ParseOpponent(raw).None? <==> forall m :: !IsMatch(Strip(raw), m)
  {
    var s := Strip(raw);
    if ParseOpponent(raw).Some? {
      assert IsMatch(s, FindMatch(s).value);
    }
  }

  function Shift(m: Match, a: nat): Match {
    Match(m.start + a, m.prefix, m.space, m.letters)
  }

  /** A match inside a slice is a match of the whole text, moved by the slice's offset. */
  lemma MatchInSlice(s: string, a: nat, b: nat, m: Match)
    requires a <= b <= |s|
    requires IsMatch(s[a..b], m)
    ensures IsMatch(s, Shift(m, a))
  {
    var u := s[a..b];
    var j := m.LettersStart();
    assert forall k :: j <= k < j + m.letters ==> u[k] == s[a + k];
    forall k | a + j <= k < a + j + m.letters
      ensures IsLetter(s[k])
    {
      assert u[k - a] == s[k];
    }
  }

  /**
   * A match of text padded with whitespace on both sides lies inside the
   * padding, so it is a match of the unpadded slice.
   */
  lemma MatchInPadded(s: string, a: nat, b: nat, m: Match)
    requires a <= b <= |s|
    requires forall k :: 0 <= k < a ==> IsStripSpace(s[k])
    requires forall k :: b <= k < |s| ==> IsStripSpace(s[k])
    requires IsMatch(s, m)
    ensures a <= m.start && m.End() <= b
    ensures IsMatch(s[a..b], Match(m.start - a, m.prefix, m.space, m.letters))
  {
    var j := m.LettersStart();
    assert !IsStripSpace(s[m.start]);
    assert !IsStripSpace(s[m.End() - 1]) by {
      assert IsLetter(s[j + m.letters - 1]);
    }
    var u := s[a..b];
    var m' := Match(m.start - a, m.prefix, m.space, m.letters);
    assert forall k :: m.start <= k < m.End() ==> s[k] == u[k - a];
    forall k | m'.LettersStart() <= k < m'.End()
      ensures IsLetter(u[k])
    {
      assert s[k + a] == u[k];
    }
  }

  /** The regex engine's match on padded text is its match on the unpadded slice. */
  lemma RegexMatchInPadded(s: string, a: nat, b: nat, m: Match)
    requires a <= b <= |s|
    requires forall k :: 0 <= k < a ==> IsStripSpace(s[k])
    requires forall k :: b <= k < |s| ==> IsStripSpace(s[k])
    requires IsRegexMatch(s, m)
    ensures a <= m.start && m.End() <= b
    ensures IsRegexMatch(s[a..b], Match(m.start - a, m.prefix, m.space, m.letters))
  {
    MatchInPadded(s, a, b, m);
    var u := s[a..b];
    var m' := Match(m.start - a, m.prefix, m.space, m.letters);
    forall n | IsMatch(u, n)
      ensures m'.start <= n.start
      ensures n.start == m'.start ==> Rank(n) <= Rank(m')
    {
      MatchInSlice(s, a, b, n);
    }
  }

  /** The captures of a match are those of the same match in any slice holding it. */
  lemma CapturesInSlice(s: string, a: nat, b: nat, m: Match)
    requires a <= b <= |s|
    requires IsMatch(s[a..b], m)
    requires IsMatch(s, Shift(m, a))
    ensures Captures(s[a..b], m) == Captures(s, Shift(m, a))
  {
    var u := s[a..b];
    var m' := Shift(m, a);
    var prefix, prefix' := u[m.start..m.start + m.prefix], s[m'.start..m'.start + m'.prefix];
    forall k | 0 <= k < m.prefix ensures prefix[k] == prefix'[k] {
      assert u[m.start + k] == s[a + m.start + k];
    }
    assert prefix == prefix';
    var code, code' := u[m.LettersStart()..m.End()], s[m'.LettersStart()..m'.End()];
    forall k | 0 <= k < m.letters ensures code[k] == code'[k] {
      assert u[m.LettersStart() + k] == s[a + m.LettersStart() + k];
    }
    assert code == code';
  }

  /** `Strip(raw)` is a slice of `raw` with only whitespace around it. */
  lemma StripIsSlice(raw: string) returns (a: nat, b: nat)
    ensures a <= b <= |raw| && Strip(raw) == raw[a..b]
    ensures forall k :: 0 <= k < a ==> IsStripSpace(raw[k])
    ensures forall k :: b <= k < |raw| ==> IsStripSpace(raw[k])
  {
    var t := TrimStart(raw);
    TrimStartIsSuffix(raw);
    TrimEndIsPrefix(t);
    a := |raw| - |t|;
    b := a + |Strip(raw)|;
    forall k | b <= k < |raw| ensures IsStripSpace(raw[k]) {
      assert raw[k] == t[k - a];
    }
  }

  /**
   * Stripping the text first changes nothing: the pattern begins with
   * "@" or "v" and ends with a letter, so whitespace at either end can
   * never be part of a match.
   */
  lemma StripDoesNotChangeParse(raw: string)
    ensures ParseOpponent(raw) ==
      (if FindMatch(raw).None? then None else Some(Captures(raw, FindMatch(raw).value)))
  {
    var u := Strip(raw);
    var a, b := StripIsSlice(raw);
    match FindMatch(raw)
    case None =>
      forall m | IsMatch(u, m) ensures false {
        MatchInSlice(raw, a, b, m);
      }
    case Some(m) =>
      RegexMatchInPadded(raw, a, b, m);
      var m' := Match(m.start - a, m.prefix, m.space, m.letters);
      ParseOpponentIsRegexMatch(raw, m');
      CapturesInSlice(raw, a, b, m');
  }

  /** Text with no whitespace at its ends whose first character starts a match. */
  lemma ParseAtStart(raw: string)
    requires raw != [] && !IsStripSpace(raw[0]) && !IsStripSpace(raw[|raw| - 1])
    requires MatchAt(raw, 0).Some?
    ensures ParseOpponent(raw) == Some(Captures(raw, MatchAt(raw, 0).value))
  {
    assert TrimStart(raw) == raw;
    assert Strip(raw) == raw;
  }

  // The examples below take their text as a parameter equal to the literal:
  // a literal argument would let the verifier unfold the whole parser on it.

  /** RSpec example: "@SAC" is an away game against SAC. */
  lemma ParseAwayNoSpace(s: string)
    requires s == "@SAC"
    ensures ParseOpponent(s) == Some(Opponent(false, "SAC"))
  {
    assert MatchAt(s, 0) == Some(Match(0, 1, 0, 3)) by {
      assert s[0] == '@' && s[1] == 'S' && s[2] == 'A' && s[3] == 'C';
      assert !IsSpace(s[1]) && LetterRun(s, 1) == 3;
    }
    ParseAtStart(s);
    assert s[1..4] == "SAC";
  }

  /** RSpec example: "@ LAL" is an away game against LAL. */
  lemma ParseAwayWithSpace(s: string)
    requires s == "@ LAL"
    ensures ParseOpponent(s) == Some(Opponent(false, "LAL"))
  {
    assert MatchAt(s, 0) == Some(Match(0, 1, 1, 3)) by {
      assert s[0] == '@' && s[1] == ' ' && s[2] == 'L' && s[3] == 'A' && s[4] == 'L';
    }
    ParseAtStart(s);
    assert s[2..5] == "LAL";
  }

  /** RSpec example: "vs LAC" is a home game against LAC. */
  lemma ParseHomeWithSpace(s: string)
    requires s == "vs LAC"
    ensures ParseOpponent(s) == Some(Opponent(true, "LAC"))
  {
    assert MatchAt(s, 0) == Some(Match(0, 2, 1, 3)) by {
      assert s[0] == 'v' && s[1] == 's' && s[2] == ' ' && s[3] == 'L' && s[4] == 'A' && s[5] == 'C';
    }
    ParseAtStart(s);
    assert s[3..6] == "LAC";
  }

  /** RSpec example: "vsPOR" is a home game against POR. */
  lemma ParseHomeNoSpace(s: string)
    requires s == "vsPOR"
    ensures ParseOpponent(s) == Some(Opponent(true, "POR"))
  {
    assert MatchAt(s, 0) == Some(Match(0, 2, 0, 3)) by {
      assert s[0] == 'v' && s[1] == 's' && s[2] == 'P' && s[3] == 'O' && s[4] == 'R';
      assert !IsSpace(s[2]) && LetterRun(s, 2) == 3;
    }
    ParseAtStart(s);
    assert s[2..5] == "POR";
  }

  /** Upper-case "VS" matches the pattern but is not taken as "at home". */
  lemma ParseUpperCaseVsIsAway(s: string)
    requires s == "VS LAC"
    ensures ParseOpponent(s) == Some(Opponent(false, "LAC"))
  {
    assert MatchAt(s, 0) == Some(Match(0, 2, 1, 3)) by {
      assert s[0] == 'V' && s[1] == 'S' && s[2] == ' ' && s[3] == 'L' && s[4] == 'A' && s[5] == 'C';
    }
    ParseAtStart(s);
    assert s[3..6] == "LAC";
  }

  /** A longer team name is cut to its first three letters. */
  lemma ParseLongNameIsCut(s: string)
    requires s == "vs BOSTON"
    ensures ParseOpponent(s) == Some(Opponent(true, "BOS"))
  {
    assert MatchAt(s, 0) == Some(Match(0, 2, 1, 3)) by {
      assert s[0] == 'v' && s[1] == 's' && s[2] == ' ' && s[3] == 'B' && s[4] == 'O' && s[5] == 'S';
      assert s[8] == 'N';
    }
    ParseAtStart(s);
    assert s[3..6] == "BOS";
  }

  /** RSpec examples for `create_records`: "@NY" is an away game against NY. */
  lemma ParseAwayTwoLetters(s: string)
    requires s == "@NY"
    ensures ParseOpponent(s) == Some(Opponent(false, "NY"))
  {
    assert MatchAt(s, 0) == Some(Match(0, 1, 0, 2)) by {
      assert s[0] == '@' && s[1] == 'N' && s[2] == 'Y';
    }
    ParseAtStart(s);
    assert s[1..3] == "NY";
  }

  /** RSpec examples for `create_records`: "vs BOS" is a home game against BOS. */
  lemma ParseHomeBos(s: string)
    requires s == "vs BOS"
    ensures ParseOpponent(s) == Some(Opponent(true, "BOS"))
  {
    assert MatchAt(s, 0) == Some(Match(0, 2, 1, 3)) by {
      assert s[0] == 'v' && s[1] == 's' && s[2] == ' ' && s[3] == 'B' && s[4] == 'O' && s[5] == 'S';
    }
    ParseAtStart(s);
    assert s[3..6] == "BOS";
  }

  /**
   * An opponent written without "@" and without "v" or "V" (such as the
   * bare "BOS" of the RSpec examples) does not parse.
   */
  lemma ParseRejectsWithoutMarker(raw: string)
    requires forall k :: 0 <= k < |raw| ==> raw[k] != '@' && raw[k] != 'v' && raw[k] != 'V'
    ensures ParseOpponent(raw) == None
  {
    var a, b := StripIsSlice(raw);
    var s := Strip(raw);
    forall m ensures !IsMatch(s, m) {
      if m.start < |s| {
        assert s[m.start] == raw[a + m.start];
      }
    }
    ParseOpponentFails(raw);
  }
}
