/**
 * The mailbox shape check of the contact endpoint: the regular expression
 * `^[^\s@]+@[^\s@]+\.[^\s@]+$` tested against the submitted email.
 *
 * `MatchesPattern` is the pattern read as a language (three non-empty runs of
 * "atoms" separated by '@' and '.'); `IsValidEmail` is an executable
 * recogniser (a small deterministic automaton, `Run`), and
 * `RecogniserMatchesPattern` proves the two agree on every string.
 * `PatternShape` restates the pattern in plain words.
 */
module EmailPattern {

  /**
   * JavaScript's `\s`: the ECMAScript WhiteSpace and LineTerminator characters,
   * that is tab, line feed, vertical tab, form feed, carriage return (U+0009 to
   * U+000D), space, and the non-ASCII ones listed in `IsWideSpace`.
   */
  function IsWhitespace(c: char): (b: bool)
    ensures '!' <= c <= '~' ==> !b
    ensures c == ' ' || c == '\t' || c == '\n' || c == '\r' || c == '\U{A0}' || c == '\U{FEFF}' ==> b
  {
    ('\t' <= c <= '\r') || c == ' ' || ('\U{A0}' <= c && IsWideSpace(c))
  }

  predicate IsWideSpace(c: char) {
    c == '\U{A0}' || c == '\U{1680}' || ('\U{2000}' <= c <= '\U{200A}')
    || c == '\U{2028}' || c == '\U{2029}' || c == '\U{202F}' || c == '\U{205F}'
    || c == '\U{3000}' || c == '\U{FEFF}'
  }

  /** The character class `[^\s@]`. Note that '.' belongs to it. */
  predicate IsAtom(c: char) {
    !IsWhitespace(c) && c != '@'
  }

  ghost predicate AllAtoms(s: string) {
    forall k :: 0 <= k < |s| ==> IsAtom(s[k])
  }

  /**
   * The regular expression as a language: `s` is `local '@' host '.' tld`
   * where each of the three parts is a non-empty run of `[^\s@]`.
   */
  ghost predicate MatchesPattern(s: string) {
    exists i, j :: 0 < i && i + 1 < j && j + 1 < |s| && s[i] == '@' && s[j] == '.'
      && AllAtoms(s[..i]) && AllAtoms(s[i + 1..j]) && AllAtoms(s[j + 1..])
  }

  /** The pattern in plain words. */
  ghost predicate PlainShape(s: string) {
    && (forall k :: 0 <= k < |s| ==> !IsWhitespace(s[k]))
    && exists i :: 0 < i < |s| && s[i] == '@'
         && (forall k :: 0 <= k < |s| && s[k] == '@' ==> k == i)
         && HasInnerDot(s[i + 1..])
  }

  /** A '.' with at least one character on each side. */
  ghost predicate HasInnerDot(d: string) {
    exists j :: 0 < j < |d| - 1 && d[j] == '.'
  }

  // ---------------------------------------------------------------------------
  // The recogniser

  /**
   * States of the recogniser, named by what has been read so far:
   * Start (nothing), Local (a non-empty local part), Host (the '@'),
   * HostRun (host characters, no '.' past the first one yet),
   * Dot (a '.' that has a host character before it, as the last character),
   * Tld (at least one character after such a '.'), Dead (no match possible).
   */
  datatype Scan = Start | Local | Host | HostRun | Dot | Tld | Dead

  function Step(q: Scan, c: char): Scan {
    if IsWhitespace(c) then Dead
    else match q
      case Start => if c == '@' then Dead else Local
      case Local => if c == '@' then Host else Local
      case Host => if c == '@' then Dead else HostRun
      case HostRun => if c == '@' then Dead else if c == '.' then Dot else HostRun
      case Dot => if c == '@' then Dead else Tld
      case Tld => if c == '@' then Dead else Tld
      case Dead => Dead
  }

  function Run(q: Scan, s: string): Scan
    decreases |s|
  {
    if s == [] then q else Run(Step(q, s[0]), s[1..])
  }

  /** `emailRegex.test(email)` (server.js:27-28). */
  function IsValidEmail(s: string): (b: bool)
    ensures b <==> MatchesPattern(s)
  {
    RecogniserMatchesPattern(s);
    Run(Start, s) == Tld
  }

  // ---------------------------------------------------------------------------
  // Correctness of the recogniser

  /** The part after the '@': `[^\s@]+\.[^\s@]+`. */
  ghost predicate HostPart(d: string) {
    AllAtoms(d) && HasInnerDot(d)
  }

  /** What each state still accepts, as a language over the rest of the input. */
  ghost predicate Accepts(q: Scan, s: string) {
    match q
    case Start =>
      exists i :: 0 < i < |s| && s[i] == '@' && AllAtoms(s[..i]) && HostPart(s[i + 1..])
    case Local =>
      exists i :: 0 <= i < |s| && s[i] == '@' && AllAtoms(s[..i]) && HostPart(s[i + 1..])
    case Host => HostPart(s)
    case HostRun => AllAtoms(s) && exists j :: 0 <= j < |s| - 1 && s[j] == '.'
    case Dot => AllAtoms(s) && |s| >= 1
    case Tld => AllAtoms(s)
    case Dead => false
  }

  lemma AtomsCons(c: char, s: string)
    ensures AllAtoms([c] + s) <==> IsAtom(c) && AllAtoms(s)
  {
    var t := [c] + s;
    if IsAtom(c) && AllAtoms(s) {
      forall k | 0 <= k < |t| ensures IsAtom(t[k]) {
        if k > 0 { assert t[k] == s[k - 1]; }
      }
    }
    if AllAtoms(t) {
      assert t[0] == c;
      forall k | 0 <= k < |s| ensures IsAtom(s[k]) { assert s[k] == t[k + 1]; }
    }
  }

  lemma StepFromStart(c: char, s: string)
    ensures Accepts(Start, [c] + s) <==> Accepts(Step(Start, c), s)
  {
    var t := [c] + s;
    if Accepts(Start, t) {
      var i :| 0 < i < |t| && t[i] == '@' && AllAtoms(t[..i]) && HostPart(t[i + 1..]);
      assert t[..i] == [c] + s[..i - 1];
      AtomsCons(c, s[..i - 1]);
      assert s[i - 1] == '@' && s[i..] == t[i + 1..];
      assert Accepts(Local, s);
    }
    if Accepts(Step(Start, c), s) {
      assert Step(Start, c) == Local && IsAtom(c);
      var i :| 0 <= i < |s| && s[i] == '@' && AllAtoms(s[..i]) && HostPart(s[i + 1..]);
      assert t[..i + 1] == [c] + s[..i];
      AtomsCons(c, s[..i]);
      assert t[i + 1] == '@' && t[i + 2..] == s[i + 1..];
    }
  }

  lemma StepFromLocal(c: char, s: string)
    ensures Accepts(Local, [c] + s) <==> Accepts(Step(Local, c), s)
  {
    if Accepts(Local, [c] + s) { StepFromLocalSound(c, s); }
    if Accepts(Step(Local, c), s) { StepFromLocalComplete(c, s); }
  }

  lemma StepFromLocalSound(c: char, s: string)
    requires Accepts(Local, [c] + s)
    ensures Accepts(Step(Local, c), s)
  {
    var t := [c] + s;
    var i :| 0 <= i < |t| && t[i] == '@' && AllAtoms(t[..i]) && HostPart(t[i + 1..]);
    if i == 0 {
      assert c == '@' && t[1..] == s;
    } else {
      assert t[..i] == [c] + s[..i - 1];
      AtomsCons(c, s[..i - 1]);
      assert s[i - 1] == '@' && s[i..] == t[i + 1..] && s[..i - 1] == s[..i - 1];
      assert Step(Local, c) == Local;
    }
  }

  lemma StepFromLocalComplete(c: char, s: string)
    requires Accepts(Step(Local, c), s)
    ensures Accepts(Local, [c] + s)
  {
    var t := [c] + s;
    if c == '@' {
      assert t[1..] == s && t[..0] == [];
      assert AllAtoms(t[..0]) && HostPart(t[0 + 1..]);
    } else {
      assert Step(Local, c) == Local && IsAtom(c);
      var i :| 0 <= i < |s| && s[i] == '@' && AllAtoms(s[..i]) && HostPart(s[i + 1..]);
      assert t[..i + 1] == [c] + s[..i];
      AtomsCons(c, s[..i]);
      assert t[i + 1] == '@' && t[i + 2..] == s[i + 1..];
    }
  }

  lemma StepFromHost(c: char, s: string)
    ensures Accepts(Host, [c] + s) <==> Accepts(Step(Host, c), s)
  {
    var t := [c] + s;
    AtomsCons(c, s);
    if Accepts(Host, t) {
      var j :| 0 < j < |t| - 1 && t[j] == '.';
      assert s[j - 1] == '.';
    }
    if Accepts(Step(Host, c), s) {
      var j :| 0 <= j < |s| - 1 && s[j] == '.';
      assert t[j + 1] == '.';
    }
  }

  lemma StepFromHostRun(c: char, s: string)
    ensures Accepts(HostRun, [c] + s) <==> Accepts(Step(HostRun, c), s)
  {
    var t := [c] + s;
    AtomsCons(c, s);
    if Accepts(HostRun, t) && c != '.' {
      var j :| 0 <= j < |t| - 1 && t[j] == '.';
      assert j > 0 && s[j - 1] == '.';
    }
    if Accepts(Step(HostRun, c), s) && c == '.' {
      assert t[0] == '.';
    }
    if Accepts(Step(HostRun, c), s) && c != '.' {
      var j :| 0 <= j < |s| - 1 && s[j] == '.';
      assert t[j + 1] == '.';
    }
  }

  lemma AtomsJoin(a: string, c: char, b: string)
    requires AllAtoms(a) && IsAtom(c) && AllAtoms(b)
    ensures AllAtoms(a + [c] + b)
  {
    var t := a + [c] + b;
    forall k | 0 <= k < |t| ensures IsAtom(t[k]) {
      if k < |a| {
        assert t[k] == a[k];
      } else if k > |a| {
        assert t[k] == b[k - |a| - 1];
      }
    }
  }

  /** One step of the recogniser moves exactly between the languages of its states. */
  lemma StepPreservesLanguage(q: Scan, c: char, s: string)
    ensures Accepts(q, [c] + s) <==> Accepts(Step(q, c), s)
  {
    match q
    case Start => StepFromStart(c, s);
    case Local => StepFromLocal(c, s);
    case Host => StepFromHost(c, s);
    case HostRun => StepFromHostRun(c, s);
    case Dot => AtomsCons(c, s);
    case Tld => AtomsCons(c, s);
    case Dead =>
  }

  lemma {:induction false} RunDecidesLanguage(q: Scan, s: string)
    ensures Run(q, s) == Tld <==> Accepts(q, s)
    decreases |s|
  {
    if s == [] {
      match q
      case Start =>
      case Local =>
      case Host =>
      case HostRun =>
      case Dot =>
      case Tld =>
      case Dead =>
    } else {
      assert s == [s[0]] + s[1..];
      StepPreservesLanguage(q, s[0], s[1..]);
      RunDecidesLanguage(Step(q, s[0]), s[1..]);
    }
  }

  /** The start state's language is the regular expression's. */
  lemma StartLanguageIsPattern(s: string)
    ensures Accepts(Start, s) <==> MatchesPattern(s)
  {
    if Accepts(Start, s) { StartLanguageInPattern(s); }
    if MatchesPattern(s) { PatternInStartLanguage(s); }
  }

  lemma StartLanguageInPattern(s: string)
    requires Accepts(Start, s)
    ensures MatchesPattern(s)
  {
    var i :| 0 < i < |s| && s[i] == '@' && AllAtoms(s[..i]) && HostPart(s[i + 1..]);
    var d := s[i + 1..];
    var j :| 0 < j < |d| - 1 && d[j] == '.';
    var J := i + 1 + j;
    assert s[J] == '.';
    var host, tld := s[i + 1..J], s[J + 1..];
    forall k | 0 <= k < |host| ensures IsAtom(host[k]) {
      assert host[k] == d[k];
    }
    forall k | 0 <= k < |tld| ensures IsAtom(tld[k]) {
      assert tld[k] == d[j + 1 + k];
    }
  }

  lemma PatternInStartLanguage(s: string)
    requires MatchesPattern(s)
    ensures Accepts(Start, s)
  {
    var i, j :| 0 < i && i + 1 < j && j + 1 < |s| && s[i] == '@' && s[j] == '.'
      && AllAtoms(s[..i]) && AllAtoms(s[i + 1..j]) && AllAtoms(s[j + 1..]);
    var host, tld := s[i + 1..j], s[j + 1..];
    var d := s[i + 1..];
    assert d == host + ['.'] + tld;
    AtomsJoin(host, '.', tld);
    assert d[j - i - 1] == '.';
  }

  /** The recogniser decides exactly the language of the regular expression. */
  lemma RecogniserMatchesPattern(s: string)
    ensures Run(Start, s) == Tld <==> MatchesPattern(s)
  {
    RunDecidesLanguage(Start, s);
    StartLanguageIsPattern(s);
  }

  /**
   * The pattern in plain words: no whitespace, exactly one '@', something
   * before it, and after it a '.' with a character on each side.
   */
  lemma PatternShape(s: string)
    ensures MatchesPattern(s) <==> PlainShape(s)
  {
    StartLanguageIsPattern(s);
    if Accepts(Start, s) { StartLanguageHasShape(s); }
    if PlainShape(s) { ShapeInStartLanguage(s); }
  }

  lemma StartLanguageHasShape(s: string)
    requires Accepts(Start, s)
    ensures PlainShape(s)
  {
    var i :| 0 < i < |s| && s[i] == '@' && AllAtoms(s[..i]) && HostPart(s[i + 1..]);
    var d := s[i + 1..];
    forall k | 0 <= k < |s| ensures !IsWhitespace(s[k]) && (s[k] == '@' ==> k == i) {
      if k < i {
        assert s[k] == s[..i][k];
      } else if k > i {
        assert s[k] == d[k - i - 1];
      }
    }
  }

  lemma ShapeInStartLanguage(s: string)
    requires PlainShape(s)
    ensures Accepts(Start, s)
  {
    var i :| 0 < i < |s| && s[i] == '@'
      && (forall k :: 0 <= k < |s| && s[k] == '@' ==> k == i)
      && HasInnerDot(s[i + 1..]);
    var d := s[i + 1..];
    forall k | 0 <= k < i ensures IsAtom(s[..i][k]) {
      assert s[..i][k] == s[k];
    }
    forall k | 0 <= k < |d| ensures IsAtom(d[k]) {
      assert d[k] == s[i + 1 + k];
    }
    assert HostPart(d);
  }

  /**
   * The cases the plain-words reading names, stated on the pattern's language
   * (`RecogniserMatchesPattern` carries them to `IsValidEmail`).
   */
  lemma AcceptedExamples()
    ensures MatchesPattern("ada@example.com")
    ensures MatchesPattern("a@b..c")
  {
    var s := "ada@example.com";
    assert s[3] == '@' && s[11] == '.';
    assert AllAtoms(s[..3]) && AllAtoms(s[4..11]) && AllAtoms(s[12..]);
    var t := "a@b..c";
    assert t[1] == '@' && t[3] == '.';
    assert AllAtoms(t[..1]) && AllAtoms(t[2..3]) && AllAtoms(t[4..]);
  }

  lemma RejectedExamples()
    ensures !MatchesPattern("not-an-email")
    ensures !MatchesPattern("a@b")
    ensures !MatchesPattern("a@b.c ")
    ensures !MatchesPattern("a@.b")
    ensures !MatchesPattern("a@b.")
  {
    var s := "not-an-email";
    PatternShape(s);
    assert forall k :: 0 <= k < |s| ==> s[k] != '@';
    var t := "a@b.c ";
    PatternShape(t);
    assert IsWhitespace(t[5]);
  }
}
