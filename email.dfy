/** The email format check of the registration form, the regular expression
    `^[^\s@]+@[^\s@]+\.[^\s@]+$`. Its `test` is modelled as the deterministic
    automaton that recognises the expression; the automaton is proved equal
    to the expression's own meaning (a split of the string into three plain
    parts around an '@' and a '.') and to a direct description of the
    accepted strings. */
module EmailPattern {
  import opened Text

  /** The class `[^\s@]`: neither whitespace nor '@'. */
  predicate IsPlain(c: char) {
    !IsWhitespace(c) && c != '@'
  }

  predicate AllPlain(s: string) {
    forall k :: 0 <= k < |s| ==> IsPlain(s[k])
  }

  // ---------------------------------------------------------------------
  // The meaning of the regular expression

  /** s is `a@b.c` with a = s[..i], b = s[i+1..j], c = s[j+1..], each a
      non-empty run of `[^\s@]`. */
  predicate SplitAt(s: string, i: int, j: int) {
    0 < i && i + 1 < j && j + 1 < |s| && s[i] == '@' && s[j] == '.' &&
    AllPlain(s[..i]) && AllPlain(s[i + 1..j]) && AllPlain(s[j + 1..])
  }

  ghost predicate RegexMatches(s: string) {
    exists i, j :: SplitAt(s, i, j)
  }

  // ---------------------------------------------------------------------
  // A direct description of the accepted strings

  /** The only '@' of s is at index i. */
  predicate OnlyAtSignAt(s: string, i: int) {
    0 <= i < |s| && s[i] == '@' && forall k :: 0 <= k < |s| && k != i ==> s[k] != '@'
  }

  /** s[j] is a '.' of the domain s[i+1..] at neither its first nor its last position. */
  predicate InnerDomainDot(s: string, i: int, j: int) {
    0 <= i && i + 1 < j < |s| - 1 && s[j] == '.'
  }

  /** No whitespace; exactly one '@', with a non-empty local part before it;
      a '.' inside the domain, not at its first or last position. */
  ghost predicate WellFormedEmail(s: string) {
    NoWhitespace(s) &&
    exists i :: 0 < i && OnlyAtSignAt(s, i) && exists j :: InnerDomainDot(s, i, j)
  }

  // ---------------------------------------------------------------------
  // The automaton

  datatype State =
    | Start    // nothing read
    | Local    // a non-empty local part read
    | AfterAt  // the '@' just read
    | Domain   // a non-empty domain read, with no '.' past its first character yet
    | Dot      // such a '.' just read
    | Tail     // at least one character read after such a '.'; accepting
    | Reject

  function Step(st: State, c: char): State {
    match st
    case Start => if IsPlain(c) then Local else Reject
    case Local => if c == '@' then AfterAt else if IsPlain(c) then Local else Reject
    case AfterAt => if IsPlain(c) then Domain else Reject
    case Domain => if c == '.' then Dot else if IsPlain(c) then Domain else Reject
    case Dot => if IsPlain(c) then Tail else Reject
    case Tail => if IsPlain(c) then Tail else Reject
    case Reject => Reject
  }

  function Run(st: State, s: string): State
    decreases |s|
  {
    if s == [] then st else Run(Step(st, s[0]), s[1..])
  }

  /** `emailRegex.test(s)`: the automaton, started on the whole string, ends
      in the accepting state exactly when the string has an '@' after at least
      one plain character, with a good domain after it. */
  function Test(s: string): (r: bool)
    ensures r <==> exists i :: 1 <= i && AtSplit(s, i)
  {
    RunAccepts(Start, s);
    Run(Start, s) == Tail
  }

  // ---------------------------------------------------------------------
  // What each state still accepts

  /** s[j] is a '.' with at least one character after it. */
  predicate DotBeforeEnd(s: string, j: int) {
    0 <= j < |s| - 1 && s[j] == '.'
  }

  /** `[^\s@]+\.[^\s@]+`, the domain part. */
  ghost predicate DomainOk(d: string) {
    AllPlain(d) && exists j :: 1 <= j && DotBeforeEnd(d, j)
  }

  /** s[i] is an '@' preceded by plain characters and followed by a good domain. */
  ghost predicate AtSplit(s: string, i: int) {
    0 <= i < |s| && s[i] == '@' && AllPlain(s[..i]) && DomainOk(s[i + 1..])
  }

  /** The strings that take the automaton from st to the accepting state. */
  ghost predicate Accepts(st: State, s: string) {
    match st
    case Start => exists i :: 1 <= i && AtSplit(s, i)
    case Local => exists i :: AtSplit(s, i)
    case AfterAt => DomainOk(s)
    case Domain => AllPlain(s) && exists j :: DotBeforeEnd(s, j)
    case Dot => s != [] && AllPlain(s)
    case Tail => AllPlain(s)
    case Reject => false
  }

  lemma DotShift(s: string, j: int)
    requires s != [] && 0 <= j
    ensures DotBeforeEnd(s, j + 1) <==> DotBeforeEnd(s[1..], j)
  {
  }

  lemma AtShift(s: string, i: int)
    requires s != [] && 0 <= i
    ensures AtSplit(s, i + 1) <==> IsPlain(s[0]) && AtSplit(s[1..], i)
  {
    if i + 1 < |s| {
      assert s[..i + 1] == [s[0]] + s[1..][..i];
      assert s[i + 2..] == s[1..][i + 1..];
    }
  }

  /** Reading one character moves the automaton to the state that accepts the rest. */
  lemma AcceptsStep(st: State, s: string)
    requires s != []
    ensures Accepts(st, s) <==> Accepts(Step(st, s[0]), s[1..])
  {
    var c, t := s[0], s[1..];
    match st
    case Start =>
      if IsPlain(c) {
        if exists i :: AtSplit(t, i) {
          var i :| AtSplit(t, i);
          AtShift(s, i);
        }
        if exists i :: 1 <= i && AtSplit(s, i) {
          var i :| 1 <= i && AtSplit(s, i);
          AtShift(s, i - 1);
        }
      }
    case Local =>
      if exists i :: AtSplit(s, i) {
        var i :| AtSplit(s, i);
        if i == 0 {
          assert s[1..] == s[i + 1..];
        } else {
          assert IsPlain(s[..i][0]);
          AtShift(s, i - 1);
        }
      }
      if c == '@' {
        if DomainOk(t) {
          assert s[..0] == [] && s[1..] == s[0 + 1..];
          assert AtSplit(s, 0);
        }
      } else if IsPlain(c) {
        if exists i :: AtSplit(t, i) {
          var i :| AtSplit(t, i);
          AtShift(s, i);
        }
      }
    case AfterAt =>
      if exists j :: 1 <= j && DotBeforeEnd(s, j) {
        var j :| 1 <= j && DotBeforeEnd(s, j);
        DotShift(s, j - 1);
      }
      if IsPlain(c) && AllPlain(t) && exists j :: DotBeforeEnd(t, j) {
        var j :| DotBeforeEnd(t, j);
        DotShift(s, j);
      }
    case Domain =>
      if exists j :: DotBeforeEnd(s, j) {
        var j :| DotBeforeEnd(s, j);
        if j > 0 {
          DotShift(s, j - 1);
        }
      }
      if c == '.' && t != [] {
        assert DotBeforeEnd(s, 0);
      } else if c != '.' && IsPlain(c) && exists j :: DotBeforeEnd(t, j) {
        var j :| DotBeforeEnd(t, j);
        DotShift(s, j);
      }
    case Dot =>
    case Tail =>
    case Reject =>
  }

  /** The automaton ends in Tail from st exactly on the strings Accepts(st, ·) describes. */
  lemma {:induction false} RunAccepts(st: State, s: string)
    ensures Run(st, s) == Tail <==> Accepts(st, s)
    decreases |s|
  {
    if s == [] {
      match st
      case Start =>
      case Local =>
      case AfterAt =>
      case Domain =>
      case Dot =>
      case Tail =>
      case Reject =>
    } else {
      AcceptsStep(st, s);
      RunAccepts(Step(st, s[0]), s[1..]);
    }
  }

  // ---------------------------------------------------------------------
  // The two characterisations of Test

  /** The automaton recognises exactly the strings the regular expression matches. */
  lemma TestMatchesRegex(s: string)
    ensures Test(s) <==> RegexMatches(s)
  {
    RunAccepts(Start, s);
    if Test(s) {
      var i :| 1 <= i && AtSplit(s, i);
      var d := s[i + 1..];
      var j :| 1 <= j && DotBeforeEnd(d, j);
      assert s[i + 1..i + 1 + j] == d[..j];
      assert s[i + 1 + j + 1..] == d[j + 1..];
      assert SplitAt(s, i, i + 1 + j);
    }
    if RegexMatches(s) {
      var i, j :| SplitAt(s, i, j);
      var d := s[i + 1..];
      assert d[..j - i - 1] == s[i + 1..j];
      assert d[j - i..] == s[j + 1..];
      assert forall k :: 0 <= k < |d| ==> IsPlain(d[k]) by {
        forall k | 0 <= k < |d| ensures IsPlain(d[k]) {
          if k < j - i - 1 {
            assert d[k] == s[i + 1..j][k];
          } else if k > j - i - 1 {
            assert d[k] == s[j + 1..][k - (j - i)];
          }
        }
      }
      assert DotBeforeEnd(d, j - i - 1);
      assert AtSplit(s, i);
    }
  }

  /** The accepted strings are exactly the well-formed ones: no whitespace,
      one '@' after a non-empty local part, and a '.' strictly inside the domain. */
  lemma TestIsWellFormed(s: string)
    ensures Test(s) <==> WellFormedEmail(s)
  {
    RunAccepts(Start, s);
    if Test(s) {
      var i :| 1 <= i && AtSplit(s, i);
      var d := s[i + 1..];
      var j :| 1 <= j && DotBeforeEnd(d, j);
      assert InnerDomainDot(s, i, i + 1 + j);
      forall k | 0 <= k < |s| ensures !IsWhitespace(s[k]) && (k != i ==> s[k] != '@') {
        if k < i {
          assert s[k] == s[..i][k];
        } else if k > i {
          assert s[k] == d[k - i - 1];
        }
      }
      assert OnlyAtSignAt(s, i);
    }
    if WellFormedEmail(s) {
      var i :| 0 < i && OnlyAtSignAt(s, i) && exists j :: InnerDomainDot(s, i, j);
      var j :| InnerDomainDot(s, i, j);
      var d := s[i + 1..];
      assert DotBeforeEnd(d, j - i - 1);
      assert AllPlain(d) by {
        forall k | 0 <= k < |d| ensures IsPlain(d[k]) {
          assert d[k] == s[i + 1 + k];
        }
      }
      assert AllPlain(s[..i]) by {
        forall k | 0 <= k < i ensures IsPlain(s[..i][k]) {
          assert s[..i][k] == s[k];
        }
      }
      assert AtSplit(s, i);
    }
  }
}
