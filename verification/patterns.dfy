/**
 * The two fixed regular expressions of the validators, each written twice:
 * as the language the expression denotes (a ghost predicate that reads like
 * the expression) and as the automaton that decides it (executable), with a
 * lemma that the two agree on every string.
 *
 * Both expressions are anchored with `^` and `$`, and Go's `$` without the
 * multi-line flag matches only at the end of the text, so matching means
 * that the whole string is in the language.
 */
module Patterns {

  predicate IsDigit(c: char) { '0' <= c <= '9' }

  predicate IsLetter(c: char) { 'a' <= c <= 'z' || 'A' <= c <= 'Z' }

  /**
   * The bracket class `[a-zA-Z-0-9\.]`. In Go's Perl-mode syntax the `-`
   * that follows the range `A-Z` cannot start a range, so it stands for
   * itself: the class holds letters, digits, `-` and `.`.
   */
  predicate IsHostChar(c: char) { IsLetter(c) || IsDigit(c) || c == '-' || c == '.' }

  predicate AllDigits(s: string) { forall i :: 0 <= i < |s| ==> IsDigit(s[i]) }

  predicate AllHostChars(s: string) { forall i :: 0 <= i < |s| ==> IsHostChar(s[i]) }

  lemma AllDigitsCons(c: char, t: string)
    ensures AllDigits([c] + t) <==> IsDigit(c) && AllDigits(t)
  {
    var s := [c] + t;
    if IsDigit(c) && AllDigits(t) {
      forall i | 0 <= i < |s| ensures IsDigit(s[i]) { if i > 0 { assert s[i] == t[i - 1]; } }
    }
    if AllDigits(s) {
      assert IsDigit(s[0]);
      forall i | 0 <= i < |t| ensures IsDigit(t[i]) { assert t[i] == s[i + 1]; }
    }
  }

  /** `[0-9]+` */
  ghost predicate Digits1(s: string) { |s| >= 1 && AllDigits(s) }

  /** The part after the colon in `(:[0-9]+)?` matches. */
  ghost predicate PortAt(s: string, i: nat)
    requires i < |s|
  {
    s[i] == ':' && Digits1(s[i + 1..])
  }

  /** The language of `^[a-zA-Z-0-9\.]+(:[0-9]+)?$`: host characters, then optionally a colon and digits. */
  ghost predicate InHostnameLanguage(s: string) {
    exists i :: 1 <= i <= |s| && AllHostChars(s[..i]) && (i == |s| || PortAt(s, i))
  }

  // ---- the automaton for the hostname expression

  datatype HostState = HostStart | InHost | AfterColon | InPort | HostReject

  function HostStep(st: HostState, c: char): HostState {
    match st
    case HostStart => if IsHostChar(c) then InHost else HostReject
    case InHost => if IsHostChar(c) then InHost else if c == ':' then AfterColon else HostReject
    case AfterColon => if IsDigit(c) then InPort else HostReject
    case InPort => if IsDigit(c) then InPort else HostReject
    case HostReject => HostReject
  }

  function HostRun(st: HostState, s: string): HostState
    decreases |s|
  {
    if s == [] then st else HostRun(HostStep(st, s[0]), s[1..])
  }

  predicate HostAccepting(st: HostState) { st == InHost || st == InPort }

  /** The compiled hostname expression: the whole of `s` matches. */
  predicate MatchesHostname(s: string) { HostAccepting(HostRun(HostStart, s)) }

  lemma {:induction false} HostRejectStays(s: string)
    ensures HostRun(HostReject, s) == HostReject
  {
    if s != [] { HostRejectStays(s[1..]); }
  }

  lemma {:induction false} PortRun(s: string)
    ensures HostRun(InPort, s) == (if AllDigits(s) then InPort else HostReject)
  {
    if s != [] {
      PortRun(s[1..]);
      if !IsDigit(s[0]) { HostRejectStays(s[1..]); }
      assert AllDigits(s) <==> IsDigit(s[0]) && AllDigits(s[1..]) by {
        if IsDigit(s[0]) && AllDigits(s[1..]) {
          forall i | 0 <= i < |s| ensures IsDigit(s[i]) { if i > 0 { assert s[i] == s[1..][i - 1]; } }
        }
      }
    }
  }

  lemma AfterColonRun(s: string)
    ensures HostAccepting(HostRun(AfterColon, s)) <==> Digits1(s)
  {
    if s != [] {
      PortRun(s[1..]);
      if !IsDigit(s[0]) { HostRejectStays(s[1..]); }
      assert AllDigits(s) <==> IsDigit(s[0]) && AllDigits(s[1..]) by {
        if IsDigit(s[0]) && AllDigits(s[1..]) {
          forall i | 0 <= i < |s| ensures IsDigit(s[i]) { if i > 0 { assert s[i] == s[1..][i - 1]; } }
        }
      }
    }
  }

  /** Once inside the host part, the rest is accepted iff it is host characters, or host characters, a colon and a port. */
  ghost predicate HostTail(s: string) {
    AllHostChars(s) || exists i :: 0 <= i < |s| && AllHostChars(s[..i]) && PortAt(s, i)
  }

  lemma {:induction false} InHostRun(s: string)
    ensures HostAccepting(HostRun(InHost, s)) <==> HostTail(s)
  {
    if s != [] {
      var c, t := s[0], s[1..];
      if IsHostChar(c) {
        InHostRun(t);
        assert AllHostChars(s) <==> AllHostChars(t) by {
          if AllHostChars(t) {
            forall i | 0 <= i < |s| ensures IsHostChar(s[i]) { if i > 0 { assert s[i] == t[i - 1]; } }
          }
        }
        if i :| 0 <= i < |t| && AllHostChars(t[..i]) && PortAt(t, i) {
          assert s[..i + 1] == [c] + t[..i];
          assert s[i + 1..][1..] == t[i..][1..];
          assert 0 <= i + 1 < |s| && AllHostChars(s[..i + 1]) && PortAt(s, i + 1);
        }
        if i :| 0 <= i < |s| && AllHostChars(s[..i]) && PortAt(s, i) {
          assert i > 0;
          assert t[..i - 1] == s[1..i];
          assert s[i + 1..] == t[i..];
          assert 0 <= i - 1 < |t| && AllHostChars(t[..i - 1]) && PortAt(t, i - 1);
        }
      } else if c == ':' {
        AfterColonRun(t);
        assert !AllHostChars(s);
        if Digits1(t) {
          assert s[..0] == [] && AllHostChars(s[..0]) && PortAt(s, 0);
        }
        if i :| 0 <= i < |s| && AllHostChars(s[..i]) && PortAt(s, i) {
          assert s[1..] == t;
        }
      } else {
        HostRejectStays(t);
        assert !AllHostChars(s);
      }
    }
  }

  /** The automaton decides exactly the language of the hostname expression. */
  lemma MatchesHostnameIsLanguage(s: string)
    ensures MatchesHostname(s) <==> InHostnameLanguage(s)
  {
    if s == [] {
    } else if !IsHostChar(s[0]) {
      HostRejectStays(s[1..]);
    } else {
      var c, t := s[0], s[1..];
      InHostRun(t);
      if AllHostChars(t) {
        assert s[..|s|] == s;
        forall i | 0 <= i < |s| ensures IsHostChar(s[i]) { if i > 0 { assert s[i] == t[i - 1]; } }
      }
      if i :| 0 <= i < |t| && AllHostChars(t[..i]) && PortAt(t, i) {
        assert s[..i + 1] == [c] + t[..i];
        assert s[i + 1..][1..] == t[i..][1..];
        assert 1 <= i + 1 <= |s| && AllHostChars(s[..i + 1]) && PortAt(s, i + 1);
      }
      if i :| 1 <= i <= |s| && AllHostChars(s[..i]) && (i == |s| || PortAt(s, i)) {
        if i == |s| {
          assert s[..i] == s;
          assert AllHostChars(t);
        } else {
          assert t[..i - 1] == s[1..i];
          assert s[i + 1..] == t[i..];
          assert 0 <= i - 1 < |t| && AllHostChars(t[..i - 1]) && PortAt(t, i - 1);
        }
      }
    }
  }

  /** A string the hostname expression accepts has at most one colon. */
  lemma HostnameHasOneColonAtMost(s: string, j: nat, k: nat)
    requires MatchesHostname(s)
    requires j < k < |s| && s[j] == ':'
    ensures s[k] != ':'
  {
    MatchesHostnameIsLanguage(s);
    var i :| 1 <= i <= |s| && AllHostChars(s[..i]) && (i == |s| || PortAt(s, i));
    assert j == i;
    assert s[k] == s[i + 1..][k - i - 1];
  }

  // ---- the time expression

  predicate IsTimeUnit(c: char) { c == 'w' || c == 'm' || c == 'd' || c == 'h' || c == 's' }

  /** The language of `^[0-9]+(w|m|d|h|s)$`: one or more digits, then exactly one unit letter, nothing else. */
  ghost predicate InTimeLanguage(s: string) {
    exists n :: 1 <= n && n + 1 == |s| && Digits1(s[..n]) && IsTimeUnit(s[n])
  }

  datatype TimeState = TimeStart | InNumber | AfterUnit | TimeReject

  function TimeStep(st: TimeState, c: char): TimeState {
    match st
    case TimeStart => if IsDigit(c) then InNumber else TimeReject
    case InNumber => if IsDigit(c) then InNumber else if IsTimeUnit(c) then AfterUnit else TimeReject
    case AfterUnit => TimeReject
    case TimeReject => TimeReject
  }

  function TimeRun(st: TimeState, s: string): TimeState
    decreases |s|
  {
    if s == [] then st else TimeRun(TimeStep(st, s[0]), s[1..])
  }

  /** The compiled time expression: the whole of `s` matches. */
  predicate MatchesTimePattern(s: string) { TimeRun(TimeStart, s) == AfterUnit }

  lemma {:induction false} TimeRejectStays(s: string)
    ensures TimeRun(TimeReject, s) == TimeReject
  {
    if s != [] { TimeRejectStays(s[1..]); }
  }

  /** Inside the number, the rest is accepted iff it is digits followed by one unit letter. */
  ghost predicate NumberTail(s: string) {
    |s| >= 1 && AllDigits(s[..|s| - 1]) && IsTimeUnit(s[|s| - 1])
  }

  lemma {:induction false} InNumberRun(s: string)
    ensures TimeRun(InNumber, s) == AfterUnit <==> NumberTail(s)
  {
    if s != [] {
      var c, t := s[0], s[1..];
      if IsDigit(c) {
        InNumberRun(t);
        if |t| >= 1 {
          assert s[..|s| - 1] == [c] + t[..|t| - 1];
          AllDigitsCons(c, t[..|t| - 1]);
        }
      } else if IsTimeUnit(c) {
        if t != [] {
          TimeRejectStays(t[1..]);
          assert s[..|s| - 1][0] == c;
        }
      } else {
        TimeRejectStays(t);
        if |s| > 1 { assert s[..|s| - 1][0] == c; }
      }
    }
  }

  /** The automaton decides exactly the language of the time expression. */
  lemma MatchesTimePatternIsLanguage(s: string)
    ensures MatchesTimePattern(s) <==> InTimeLanguage(s)
  {
    if s != [] {
      var c, t := s[0], s[1..];
      if IsDigit(c) {
        InNumberRun(t);
        if NumberTail(t) {
          var n := |s| - 1;
          assert s[..n] == [c] + t[..|t| - 1];
          forall i | 0 <= i < n ensures IsDigit(s[..n][i]) {
            if i > 0 { assert s[..n][i] == t[..|t| - 1][i - 1]; }
          }
          assert 1 <= n && n + 1 == |s| && Digits1(s[..n]) && IsTimeUnit(s[n]);
        }
        if n :| 1 <= n && n + 1 == |s| && Digits1(s[..n]) && IsTimeUnit(s[n]) {
          assert t[..|t| - 1] == s[..n][1..];
        }
      } else {
        TimeRejectStays(t);
        forall n | 1 <= n <= |s| ensures !AllDigits(s[..n]) { assert s[..n][0] == c; }
      }
    }
  }
}
