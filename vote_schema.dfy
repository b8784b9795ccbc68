/** The vote form's rules (src/schemas/voteShema.ts): a name of at least
    three characters, an optional email that must contain a match of the
    unanchored pattern `\S+@\S+\.\S+` when it is not empty, and at least one
    selected slot. */
module VoteSchema {

  import opened Types
  import opened Text

  /** The values the vote form submits. */
  datatype VoteForm = VoteForm(name: string, email: Option<string>, selectedSlots: seq<string>)

  /** `z.string().min(3).nonempty()`: no restriction on the characters. */
  function ValidVoteName(name: string): (r: bool)
    ensures r <==> |name| >= 3
  {
    |name| >= 3 && |name| > 0
  }

  /** `\S+`: one or more characters that are not JavaScript whitespace. */
  predicate NonBlank(t: string) {
    |t| > 0 && forall i :: 0 <= i < |t| ==> !IsJsWhitespace(t[i])
  }

  /** `s[a..d]` is a match of `\S+@\S+\.\S+` with the `@` at `b` and the `.` at `c`. */
  predicate MatchesAt(s: string, a: int, b: int, c: int, d: int) {
    0 <= a < b < c < d <= |s| &&
    NonBlank(s[a..b]) && s[b] == '@' && NonBlank(s[b + 1..c]) && s[c] == '.' && NonBlank(s[c + 1..d])
  }

  /** `/\S+@\S+\.\S+/.test(s)`: the pattern is not anchored, so any
      substring may match. */
  ghost predicate EmailPatternMatches(s: string) {
    exists a, b, c, d :: MatchesAt(s, a, b, c, d)
  }

  /** No whitespace in `s[lo..hi]`. */
  predicate BlankFree(s: string, lo: int, hi: int) {
    forall m :: lo <= m < hi && 0 <= m < |s| ==> !IsJsWhitespace(s[m])
  }

  /** Looks for a `.` at `c` or later that ends a blank-free run begun at
      `b + 1` and is followed by a non-blank character. */
  predicate DotAfter(s: string, b: nat, c: nat)
    requires b + 2 <= c
    decreases |s| - c
  {
    c + 1 < |s| && !IsJsWhitespace(s[c - 1]) &&
    ((s[c] == '.' && !IsJsWhitespace(s[c + 1])) || DotAfter(s, b, c + 1))
  }

  /** Looks for an `@` at `b` or later preceded by a non-blank character and
      followed by a suitable `.`. */
  predicate AtFrom(s: string, b: nat)
    requires b >= 1
    decreases |s| - b
  {
    b < |s| &&
    ((s[b] == '@' && !IsJsWhitespace(s[b - 1]) && DotAfter(s, b, b + 2)) || AtFrom(s, b + 1))
  }

  /** The executable test of the email pattern: it accepts exactly the
      strings the pattern matches somewhere in. */
  function EmailText(s: string): (r: bool)
    ensures r <==> EmailPatternMatches(s)
  {
    EmailTextIff(s);
    AtFrom(s, 1)
  }

  lemma {:induction false} DotAfterSound(s: string, b: nat, c: nat)
    requires b + 2 <= c && DotAfter(s, b, c)
    requires BlankFree(s, b + 1, c - 1)
    ensures exists e :: c <= e < |s| - 1 && s[e] == '.' && !IsJsWhitespace(s[e + 1]) && BlankFree(s, b + 1, e)
    decreases |s| - c
  {
    if s[c] == '.' && !IsJsWhitespace(s[c + 1]) {
      assert BlankFree(s, b + 1, c);
    } else {
      DotAfterSound(s, b, c + 1);
    }
  }

  lemma {:induction false} AtFromSound(s: string, b: nat)
    requires b >= 1 && AtFrom(s, b)
    ensures EmailPatternMatches(s)
    decreases |s| - b
  {
    if s[b] == '@' && !IsJsWhitespace(s[b - 1]) && DotAfter(s, b, b + 2) {
      DotAfterSound(s, b, b + 2);
      var e :| b + 2 <= e < |s| - 1 && s[e] == '.' && !IsJsWhitespace(s[e + 1]) && BlankFree(s, b + 1, e);
      assert NonBlank(s[b - 1..b]);
      assert NonBlank(s[b + 1..e]) by {
        var t := s[b + 1..e];
        forall i | 0 <= i < |t| ensures !IsJsWhitespace(t[i]) {
          assert t[i] == s[b + 1 + i];
        }
      }
      assert NonBlank(s[e + 1..e + 2]);
      assert MatchesAt(s, b - 1, b, e, e + 2);
    } else {
      AtFromSound(s, b + 1);
    }
  }

  lemma {:induction false} DotAfterComplete(s: string, b: nat, c: nat, e: nat)
    requires b + 2 <= c <= e && e + 1 < |s| && s[e] == '.' && !IsJsWhitespace(s[e + 1])
    requires BlankFree(s, b + 1, e)
    ensures DotAfter(s, b, c)
    decreases e - c
  {
    if c < e {
      DotAfterComplete(s, b, c + 1, e);
    }
  }

  lemma {:induction false} AtFromComplete(s: string, b: nat, at: nat, e: nat)
    requires 1 <= b <= at && at + 2 <= e && e + 1 < |s|
    requires s[at] == '@' && !IsJsWhitespace(s[at - 1])
    requires s[e] == '.' && !IsJsWhitespace(s[e + 1])
    requires BlankFree(s, at + 1, e)
    ensures AtFrom(s, b)
    decreases at - b
  {
    if b < at {
      AtFromComplete(s, b + 1, at, e);
    } else {
      DotAfterComplete(s, at, at + 2, e);
    }
  }

  /** The scanner accepts exactly the strings the pattern matches somewhere in. */
  lemma EmailTextIff(s: string)
    ensures AtFrom(s, 1) <==> EmailPatternMatches(s)
  {
    if AtFrom(s, 1) {
      AtFromSound(s, 1);
    }
    if EmailPatternMatches(s) {
      var a, b, c, d :| MatchesAt(s, a, b, c, d);
      assert s[b - 1] == s[a..b][b - 1 - a];
      assert s[c + 1] == s[c + 1..d][0];
      forall m | b + 1 <= m < c ensures !IsJsWhitespace(s[m]) {
        assert s[m] == s[b + 1..c][m - b - 1];
      }
      assert BlankFree(s, b + 1, c);
      AtFromComplete(s, 1, b, c);
    }
  }

  /** The pattern is unanchored: text around a matching address keeps it matching. */
  lemma UnanchoredEmail(p: string, s: string, q: string)
    requires EmailPatternMatches(s)
    ensures EmailPatternMatches(p + s + q)
  {
    var a, b, c, d :| MatchesAt(s, a, b, c, d);
    var t := p + s + q;
    var k := |p|;
    assert t[k + a..k + b] == s[a..b];
    assert t[k + b + 1..k + c] == s[b + 1..c];
    assert t[k + c + 1..k + d] == s[c + 1..d];
    assert t[k + b] == s[b] && t[k + c] == s[c];
    assert MatchesAt(t, k + a, k + b, k + c, k + d);
  }

  /** `.optional().refine((val) => !val || pattern.test(val))`: an absent or
      empty email passes; any other must contain a match. */
  function ValidEmail(email: Option<string>): (r: bool)
    ensures r <==> email.None? || email.value == "" || EmailPatternMatches(email.value)
  {
    email.None? || email.value == "" || EmailText(email.value)
  }

  /** `voteSchema`. */
  function ValidVote(f: VoteForm): (r: bool)
    ensures r <==> |f.name| >= 3 && |f.selectedSlots| >= 1 &&
                   (f.email.None? || f.email.value == "" || EmailPatternMatches(f.email.value))
  {
    ValidVoteName(f.name) && ValidEmail(f.email) && |f.selectedSlots| >= 1
  }

  /** A non-empty email passes exactly when the pattern matches somewhere in it. */
  lemma ValidEmailIff(email: Option<string>)
    ensures ValidEmail(email) <==> email.None? || email.value == "" || EmailPatternMatches(email.value)
  {
    if email.Some? {
      EmailTextIff(email.value);
    }
  }

  /** Some concrete verdicts: digits are allowed in a name, and the pattern
      needs a non-blank run on each side of the `@` and after the `.`. */
  lemma Examples()
    ensures ValidVoteName("ab1")
    ensures !ValidVoteName("ab")
    ensures EmailText("a@b.c")
    ensures !EmailText("a@b.")
    ensures !EmailText("@b.c")
    ensures EmailText(" x a@b.c y")
  {
    assert DotAfter("a@b.c", 1, 3);
    assert !DotAfter("a@b.", 1, 3);
    assert !AtFrom("@b.c", 2) && !AtFrom("@b.c", 3);
    assert !AtFrom("a@b.", 2) && !AtFrom("a@b.", 3);
    assert DotAfter(" x a@b.c y", 4, 6);
  }
}
