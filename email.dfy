/**
 * The e-mail pattern `^[^\s@]+@[^\s@]+\.[^\s@]+$` shared by the server routes and
 * the registration screen. `IsEmail` runs a finite automaton for the pattern;
 * `MatchesPattern` reads the pattern as "three non-empty runs of characters that
 * are neither white space nor `@`, separated by `@` and `.`". They agree on every
 * string (`IsEmailCorrect`).
 */
module EmailPattern {
  import opened Text

  /** A character of the class `[^\s@]`. */
  predicate Plain(c: char) {
    !IsSpace(c) && c != '@'
  }

  predicate AllPlain(s: string) {
    forall i | 0 <= i < |s| :: Plain(s[i])
  }

  /** The pattern read directly: `s == a + "@" + b + "." + c`, with `a`, `b`, `c`
      non-empty runs of plain characters. */
  ghost predicate MatchesPattern(s: string) {
    exists i, j | 0 < i && i + 1 < j && j + 1 < |s| ::
      && s[i] == '@' && s[j] == '.'
      && AllPlain(s[..i]) && AllPlain(s[i + 1..j]) && AllPlain(s[j + 1..])
  }

  /** States of the automaton: before the local part, inside it, and four states
      for the domain after `@` (nothing read; no usable dot yet; just read a dot
      that has something before it; a dot followed by something seen). */
  datatype State = Start | Local | DomainEmpty | DomainNoDot | DomainDot | DomainDone | Reject

  function Step(q: State, c: char): State {
    match q
    case Start => if Plain(c) then Local else Reject
    case Local => if c == '@' then DomainEmpty else if Plain(c) then Local else Reject
    case DomainEmpty => if Plain(c) then DomainNoDot else Reject
    case DomainNoDot => if c == '.' then DomainDot else if Plain(c) then DomainNoDot else Reject
    case DomainDot => if Plain(c) then DomainDone else Reject
    case DomainDone => if Plain(c) then DomainDone else Reject
    case Reject => Reject
  }

  function Run(q: State, s: string): State
    decreases |s|
  {
    if s == [] then q else Run(Step(q, s[0]), s[1..])
  }

  /** `emailRegex.test(s)` / `s.match(emailRegex)` */
  predicate IsEmail(s: string) {
    Run(Start, s) == DomainDone
  }

  /** What may follow the `@`: `[^\s@]+\.[^\s@]+`. */
  ghost predicate Domain(t: string) {
    AllPlain(t) && exists k | 1 <= k < |t| - 1 :: t[k] == '.'
  }

  /** What each state still accepts (the language of the remaining input). */
  ghost predicate Accepts(q: State, t: string) {
    match q
    case DomainDone => AllPlain(t)
    case DomainDot => t != [] && AllPlain(t)
    case DomainNoDot => AllPlain(t) && exists k | 0 <= k < |t| - 1 :: t[k] == '.'
    case DomainEmpty => Domain(t)
    case Local => exists i | 0 <= i < |t| :: t[i] == '@' && AllPlain(t[..i]) && Domain(t[i + 1..])
    case Start => exists i | 0 < i < |t| :: t[i] == '@' && AllPlain(t[..i]) && Domain(t[i + 1..])
    case Reject => false
  }

  lemma AllPlainCons(t: string)
    requires t != []
    ensures AllPlain(t) <==> Plain(t[0]) && AllPlain(t[1..])
  {
    if Plain(t[0]) && AllPlain(t[1..]) {
      forall k | 0 <= k < |t| ensures Plain(t[k]) {
        if k > 0 { assert t[1..][k - 1] == t[k]; }
      }
    }
  }

  lemma PrefixCons(t: string, i: nat)
    requires i < |t|
    ensures AllPlain(t[..i + 1]) <==> Plain(t[0]) && AllPlain(t[1..][..i])
  {
    assert t[..i + 1] == [t[0]] + t[1..][..i];
    AllPlainCons(t[..i + 1]);
  }

  /** An `@` at index `i` of `t[1..]` is an `@` at `i + 1` of `t`. */
  lemma LocalFromTail(t: string, i: nat)
    requires t != [] && Plain(t[0])
    requires i < |t| - 1 && t[1..][i] == '@' && AllPlain(t[1..][..i]) && Domain(t[1..][i + 1..])
    ensures Accepts(Local, t) && Accepts(Start, t)
  {
    PrefixCons(t, i);
    assert t[i + 2..] == t[1..][i + 1..];
    assert t[i + 1] == '@' && AllPlain(t[..i + 1]) && Domain(t[i + 2..]);
  }

  /** An `@` at index `i > 0` of `t` is an `@` at `i - 1` of `t[1..]`. */
  lemma LocalToTail(t: string, i: nat)
    requires 0 < i < |t| && t[i] == '@' && AllPlain(t[..i]) && Domain(t[i + 1..])
    ensures Accepts(Local, t[1..])
  {
    var u := t[1..];
    PrefixCons(t, i - 1);
    assert u[i..] == t[i + 1..];
    assert u[i - 1] == '@' && AllPlain(u[..i - 1]) && Domain(u[i..]);
  }

  /** The local-part states: a plain first character changes nothing about where the `@` may be. */
  lemma LocalStep(t: string)
    requires t != [] && Plain(t[0])
    ensures Accepts(Local, t[1..]) <==> Accepts(Local, t)
    ensures Accepts(Local, t[1..]) <==> Accepts(Start, t)
  {
    var u := t[1..];
    if Accepts(Local, u) {
      var i :| 0 <= i < |u| && u[i] == '@' && AllPlain(u[..i]) && Domain(u[i + 1..]);
      LocalFromTail(t, i);
    }
    if Accepts(Local, t) || Accepts(Start, t) {
      var i :| 0 <= i < |t| && t[i] == '@' && AllPlain(t[..i]) && Domain(t[i + 1..]);
      assert i != 0;
      LocalToTail(t, i);
    }
  }

  /** Reading `@` in the local part: the first `@` is the separator. */
  lemma AtStep(t: string)
    requires t != [] && t[0] == '@'
    ensures Accepts(Local, t) <==> Accepts(DomainEmpty, t[1..])
  {
    if Accepts(Local, t) {
      var i :| 0 <= i < |t| && t[i] == '@' && AllPlain(t[..i]) && Domain(t[i + 1..]);
    }
    if Accepts(DomainEmpty, t[1..]) {
      assert AllPlain(t[..0]);
    }
  }

  /** A dot at index `k` of `t` is the dot at `k - 1` of `t[1..]`. */
  lemma DomainStep(t: string)
    requires t != [] && Plain(t[0])
    ensures Accepts(DomainEmpty, t) <==> Accepts(DomainNoDot, t[1..])
    ensures t[0] != '.' ==> (Accepts(DomainNoDot, t) <==> Accepts(DomainNoDot, t[1..]))
    ensures t[0] == '.' ==> (Accepts(DomainNoDot, t) <==> Accepts(DomainDot, t[1..]))
    ensures Accepts(DomainDot, t) <==> Accepts(DomainDone, t[1..])
    ensures Accepts(DomainDone, t) <==> Accepts(DomainDone, t[1..])
  {
    var u := t[1..];
    AllPlainCons(t);
    if AllPlain(u) {
      if exists k | 1 <= k < |t| - 1 :: t[k] == '.' {
        var k :| 1 <= k < |t| - 1 && t[k] == '.';
        assert u[k - 1] == '.';
      }
      if exists k | 0 <= k < |u| - 1 :: u[k] == '.' {
        var k :| 0 <= k < |u| - 1 && u[k] == '.';
        assert t[k + 1] == '.';
      }
      if t[0] != '.' && exists k | 0 <= k < |t| - 1 :: t[k] == '.' {
        var k :| 0 <= k < |t| - 1 && t[k] == '.';
        assert u[k - 1] == '.';
      }
      if t[0] == '.' && u != [] {
        assert t[0] == '.' && 0 < |t| - 1;
      }
    }
  }

  /** Running from `q` ends in the accepting state exactly when `q` accepts the rest. */
  lemma {:induction false} RunAccepts(q: State, t: string)
    ensures Run(q, t) == DomainDone <==> Accepts(q, t)
    decreases |t|
  {
    if t == [] {
      assert Accepts(DomainNoDot, t) == false;
      assert !Accepts(Local, t) && !Accepts(Start, t);
    } else {
      var c := t[0];
      RunAccepts(Step(q, c), t[1..]);
      if q == Reject {
      } else if Step(q, c) == Reject {
        AllPlainCons(t);
        if q == Local || q == Start {
          forall i | 0 < i < |t| && t[i] == '@' ensures !AllPlain(t[..i]) {
            assert t[..i][0] == t[0];
          }
        }
      } else if q == Start || q == Local {
        if c == '@' { AtStep(t); } else { LocalStep(t); }
      } else {
        DomainStep(t);
      }
    }
  }

  lemma PatternIsAccepted(s: string)
    requires MatchesPattern(s)
    ensures Accepts(Start, s)
  {
    var i, j :| 0 < i && i + 1 < j && j + 1 < |s| && s[i] == '@' && s[j] == '.'
      && AllPlain(s[..i]) && AllPlain(s[i + 1..j]) && AllPlain(s[j + 1..]);
    var t := s[i + 1..];
    var k := j - i - 1;
    assert t[k] == '.';
    forall m | 0 <= m < |t| ensures Plain(t[m]) {
      if m < k { assert t[m] == s[i + 1..j][m]; }
      else if m > k { assert t[m] == s[j + 1..][m - k - 1]; }
    }
    assert Domain(t);
  }

  /** The two runs of plain characters around a dot at index `k` of the domain `s[i + 1..]`. */
  lemma PlainAroundDot(s: string, i: nat, k: nat)
    requires i + k + 2 <= |s| && AllPlain(s[i + 1..])
    ensures AllPlain(s[i + 1..i + 1 + k]) && AllPlain(s[i + 2 + k..])
  {
    var d, a, b := s[i + 1..], s[i + 1..i + 1 + k], s[i + 2 + k..];
    forall m | 0 <= m < |a| ensures Plain(a[m]) {
      assert a[m] == d[m];
    }
    forall m | 0 <= m < |b| ensures Plain(b[m]) {
      assert b[m] == d[k + 1 + m];
    }
  }

  /** Separators at `i` and `j` with plain runs around them make a match. */
  lemma PatternWitness(s: string, i: nat, j: nat)
    requires 0 < i && i + 1 < j && j + 1 < |s| && s[i] == '@' && s[j] == '.'
    requires AllPlain(s[..i]) && AllPlain(s[i + 1..j]) && AllPlain(s[j + 1..])
    ensures MatchesPattern(s)
  {
  }

  lemma AcceptedIsPattern(s: string)
    requires Accepts(Start, s)
    ensures MatchesPattern(s)
  {
    var i :| 0 < i < |s| && s[i] == '@' && AllPlain(s[..i]) && Domain(s[i + 1..]);
    var k :| 1 <= k < |s[i + 1..]| - 1 && s[i + 1..][k] == '.';
    assert s[i + 1 + k] == '.';
    PlainAroundDot(s, i, k);
    PatternWitness(s, i, i + 1 + k);
  }

  /** The automaton recognises exactly the strings the pattern describes. */
  lemma IsEmailCorrect(s: string)
    ensures IsEmail(s) <==> MatchesPattern(s)
  {
    RunAccepts(Start, s);
    if MatchesPattern(s) { PatternIsAccepted(s); }
    if Accepts(Start, s) { AcceptedIsPattern(s); }
  }
}
