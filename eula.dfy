/** The licence acceptance performed once a new server has written `eula.txt`:
    `eulaContent.replace('eula=false', 'eula=true')`. */
module Eula {
  import opened Wrappers
  import opened Strings

  const Declined := "eula=false"
  const Accepted := "eula=true"

  /** The rewrite of the file's text. */
  function AcceptEula(content: string): string {
    ReplaceFirst(content, Declined, Accepted)
  }

  /** `pat` occurs at most once in `s`. */
  ghost predicate AtMostOnce(s: string, pat: string) {
    forall i: nat, j: nat :: OccursAt(s, pat, i) && OccursAt(s, pat, j) ==> i == j
  }

  /** A file that holds no `eula=false` (for instance one already accepted) is left unchanged. */
  lemma {:induction false} AcceptEulaKeepsAcceptedFile(content: string)
    requires !Occurs(content, Declined)
    ensures AcceptEula(content) == content
  {
  }

  /** The leftmost `eula=false` becomes `eula=true`; everything around it is kept. */
  lemma {:induction false} AcceptEulaReplacesFirst(content: string, i: nat)
    requires FirstOccurrence(content, Declined, i)
    ensures AcceptEula(content) == content[..i] + Accepted + content[i + |Declined|..]
    ensures |AcceptEula(content)| == |content| - 1
  {
  }

  /** Each character of `Declined` and `Accepted`, spelled out for the overlap argument. */
  lemma Letters()
    ensures |Declined| == 10 && |Accepted| == 9
    ensures Declined[0] == 'e' && Declined[5] == 'f' && Declined[9] == 'e'
    ensures forall k :: 1 <= k <= 8 ==> Declined[k] != 'e'
    ensures Accepted[..5] == Declined[..5] && Accepted[5] == 't' && Accepted[8] == 'e'
    ensures forall k :: 1 <= k <= 7 ==> Accepted[k] != 'e'
  {
  }

  /** The text with `eula=true` put in place of the ten characters at `i`. */
  function Spliced(content: string, i: nat): string
    requires i + |Declined| <= |content|
  {
    content[..i] + Accepted + content[i + |Declined|..]
  }

  /** Windows left of the new text are windows of the original. */
  lemma WindowBefore(content: string, i: nat, j: nat)
    requires i + 10 <= |content| && j + 10 <= i && !OccursAt(content, Declined, j)
    ensures !OccursAt(Spliced(content, i), Declined, j)
  {
    assert Spliced(content, i)[j..j + 10] == content[j..j + 10];
  }

  /** Windows right of the new text are windows of the original, one place further on. */
  lemma WindowAfter(content: string, i: nat, j: nat)
    requires i + 10 <= |content| && i + 9 <= j && !OccursAt(content, Declined, j + 1)
    ensures !OccursAt(Spliced(content, i), Declined, j)
  {
    var r := Spliced(content, i);
    if j + 10 <= |r| {
      assert r[j..j + 10] == content[j + 1..j + 11];
    }
  }

  /** A window starting one to eight places before the new text meets its opening 'e'
      where `eula=false` has no 'e'. */
  lemma WindowMeetsOpeningE(content: string, i: nat, j: nat)
    requires i + 10 <= |content| && j < i < j + 9
    ensures !OccursAt(Spliced(content, i), Declined, j)
  {
    Letters();
    var r := Spliced(content, i);
    assert r[i] == Accepted[0] == 'e';
    if j + 10 <= |r| {
      assert r[j..j + 10][i - j] == r[i];
    }
  }

  /** A window starting nine places before the new text would end in its opening 'e',
      making a second, earlier `eula=false` in the original. */
  lemma WindowEndsAtOpeningE(content: string, i: nat)
    requires 9 <= i && i + 10 <= |content|
    requires OccursAt(content, Declined, i) && !OccursAt(content, Declined, i - 9)
    ensures !OccursAt(Spliced(content, i), Declined, i - 9)
  {
    Letters();
    var r := Spliced(content, i);
    var j := i - 9;
    assert content[i] == content[i..i + 10][0] == Declined[0] == Declined[9];
    assert content[j..j + 10] == content[j..j + 9] + [content[i]];
    assert Declined == Declined[..9] + [Declined[9]];
    assert r[j..j + 10] == content[j..j + 9] + [r[i]];
  }

  /** The window of the new text itself differs at `t`/`f`. */
  lemma WindowAtNewText(content: string, i: nat)
    requires i + 10 <= |content|
    ensures !OccursAt(Spliced(content, i), Declined, i)
  {
    Letters();
    var r := Spliced(content, i);
    if i + 10 <= |r| {
      assert r[i..i + 10][5] == Accepted[5] == 't';
    }
  }

  /** A window starting inside the new text, before its last letter, opens with no 'e'. */
  lemma WindowInsideNewText(content: string, i: nat, j: nat)
    requires i + 10 <= |content| && i < j < i + 8
    ensures !OccursAt(Spliced(content, i), Declined, j)
  {
    Letters();
    var r := Spliced(content, i);
    if j + 10 <= |r| {
      assert r[j..j + 10][0] == Accepted[j - i];
    }
  }

  /** A window starting at the closing 'e' of `eula=true` would continue into the
      original text just as a second `eula=false` starting at `i + 9` would. */
  lemma WindowAtClosingE(content: string, i: nat)
    requires i + 10 <= |content|
    requires OccursAt(content, Declined, i) && !OccursAt(content, Declined, i + 9)
    ensures !OccursAt(Spliced(content, i), Declined, i + 8)
  {
    Letters();
    var r := Spliced(content, i);
    var j := i + 8;
    if j + 10 <= |r| {
      assert content[i + 9] == content[i..i + 10][9] == Declined[9] == Declined[0];
      assert content[i + 9..i + 19] == [Declined[0]] + content[i + 10..i + 19];
      assert Declined == [Declined[0]] + Declined[1..];
      assert r[j..j + 10] == [r[j]] + content[i + 10..i + 19];
    }
  }

  /** No `eula=false` starts at `j` in the rewritten text. */
  lemma NoDeclinedAt(content: string, i: nat, j: nat)
    requires FirstOccurrence(content, Declined, i) && AtMostOnce(content, Declined)
    ensures !OccursAt(AcceptEula(content), Declined, j)
  {
    AcceptEulaReplacesFirst(content, i);
    assert AcceptEula(content) == Spliced(content, i);
    if j + 10 <= i {
      WindowBefore(content, i, j);
    } else if i + 9 <= j {
      WindowAfter(content, i, j);
    } else if j < i && i < j + 9 {
      WindowMeetsOpeningE(content, i, j);
    } else if j < i {
      WindowEndsAtOpeningE(content, i);
    } else if j == i {
      WindowAtNewText(content, i);
    } else if j < i + 8 {
      WindowInsideNewText(content, i, j);
    } else {
      WindowAtClosingE(content, i);
    }
  }

  /** When `eula=false` occurs once, the rewrite leaves no `eula=false` behind. */
  lemma NoDeclinedAfterRewrite(content: string, i: nat)
    requires FirstOccurrence(content, Declined, i) && AtMostOnce(content, Declined)
    ensures !Occurs(AcceptEula(content), Declined)
  {
    forall j: nat ensures !OccursAt(AcceptEula(content), Declined, j) {
      NoDeclinedAt(content, i, j);
    }
  }

  /** With at most one `eula=false`, accepting twice is accepting once. */
  lemma AcceptEulaIdempotent(content: string)
    requires AtMostOnce(content, Declined)
    ensures AcceptEula(AcceptEula(content)) == AcceptEula(content)
  {
    var found := IndexOfFrom(content, Declined, 0);
    if found.Some? {
      NoDeclinedAfterRewrite(content, found.value);
    }
    AcceptEulaKeepsAcceptedFile(AcceptEula(content));
  }

  /** With two `eula=false` lines only the first is accepted, so the rewrite is not
      idempotent in general. */
  lemma SecondDeclinedSurvives()
    ensures AcceptEula(Declined + "\n" + Declined) == Accepted + "\n" + Declined
    ensures AcceptEula(AcceptEula(Declined + "\n" + Declined)) != AcceptEula(Declined + "\n" + Declined)
  {
    var content := Declined + "\n" + Declined;
    assert OccursAt(content, Declined, 0);
    assert FirstOccurrence(content, Declined, 0);
    var once := Accepted + "\n" + Declined;
    assert content[10..] == "\n" + Declined;
    assert AcceptEula(content) == once;
    assert OccursAt(once, Declined, 10);
    Letters();
    forall j: nat | j < 10 ensures !OccursAt(once, Declined, j) {
      if j + 10 <= |once| {
        assert once[j..j + 10][9 - j] == once[9] == '\n';
      }
    }
    assert FirstOccurrence(once, Declined, 10);
    assert |AcceptEula(once)| == |once| - 1;
  }

  /** The rewrite shortens the text by one character exactly when it finds `eula=false`. */
  lemma AcceptEulaLength(content: string)
    ensures |AcceptEula(content)| == |content| - (if Occurs(content, Declined) then 1 else 0)
  {
    var found := IndexOfFrom(content, Declined, 0);
    if found.Some? {
      AcceptEulaReplacesFirst(content, found.value);
    }
  }

  /** Accepting a file with at most one `eula=false` leaves none behind. */
  lemma AcceptedHasNoDeclined(content: string)
    ensures AtMostOnce(content, Declined) ==> !Occurs(AcceptEula(content), Declined)
  {
    if AtMostOnce(content, Declined) {
      var found := IndexOfFrom(content, Declined, 0);
      if found.Some? {
        NoDeclinedAfterRewrite(content, found.value);
      } else {
        AcceptEulaKeepsAcceptedFile(content);
      }
    }
  }

  /** What the exit callback of the process `addServer` launches writes back to
      `eula.txt`: nothing when the process ended with an error or the file cannot be
      read, otherwise the text with its first `eula=false` accepted. */
  function EulaAfterExit(exitError: Option<string>, eula: Option<string>): (written: Option<string>)
    ensures written.Some? <==> exitError.None? && eula.Some?
    ensures written.Some? && !Occurs(eula.value, Declined) ==> written.value == eula.value
    ensures written.Some? && AtMostOnce(eula.value, Declined) ==> !Occurs(written.value, Declined)
    ensures written.Some? ==> |written.value| == |eula.value| - (if Occurs(eula.value, Declined) then 1 else 0)
  {
    if exitError.Some? || eula.None? then None
    else
      AcceptedHasNoDeclined(eula.value);
      AcceptEulaLength(eula.value);
      Some(AcceptEula(eula.value))
  }
}
