/** The two rewrites applied to a Java submission before it is sent
    (src/utils/codeExecutor.js:44-52): every `public class <Name>` becomes
    `public class Main`, because the remote service always names the file
    `main.java`; and non-empty standard input is terminated by a newline so
    that the last `Scanner` read does not block. */
module JavaNormalization {
  import opened Wrappers
  import opened Text

  const Replacement: string := "public class Main"

  predicate AllSpace(s: string)
  {
    forall i :: 0 <= i < |s| ==> IsSpace(s[i])
  }

  predicate AllWord(s: string)
  {
    forall i :: 0 <= i < |s| ==> IsWord(s[i])
  }

  /** Length of the longest run of `\s` characters at the start of `s`. */
  function SpaceRun(s: string): (k: nat)
    ensures k <= |s|
    ensures AllSpace(s[..k])
    ensures k == |s| || !IsSpace(s[k])
    decreases |s|
  {
    if s != [] && IsSpace(s[0]) then 1 + SpaceRun(s[1..]) else 0
  }

  /** Length of the longest run of `\w` characters at the start of `s`. */
  function WordRun(s: string): (k: nat)
    ensures k <= |s|
    ensures AllWord(s[..k])
    ensures k == |s| || !IsWord(s[k])
    decreases |s|
  {
    if s != [] && IsWord(s[0]) then 1 + WordRun(s[1..]) else 0
  }

  /** `s[..n]` reads `public`, `w1` whitespace characters, `class`, `w2`
      whitespace characters and then one or more word characters: one way
      the prefix matches `public\s+class\s+\w+`. */
  predicate MatchShape(s: string, n: int, w1: int, w2: int)
  {
    && 1 <= w1 && 1 <= w2 && 11 + w1 + w2 < n <= |s|
    && s[..6] == "public"
    && AllSpace(s[6..6 + w1])
    && s[6 + w1..11 + w1] == "class"
    && AllSpace(s[11 + w1..11 + w1 + w2])
    && AllWord(s[11 + w1 + w2..n])
  }

  /** The prefix `s[..n]` matches `public\s+class\s+\w+`. */
  ghost predicate PatternMatches(s: string, n: int)
  {
    exists w1, w2 :: MatchShape(s, n, w1, w2)
  }

  /** The length of the match of `public\s+class\s+\w+` anchored at the start
      of `s`, if there is one. Each `\s+` must take the whole whitespace run
      (the next letter is never whitespace) and `\w+` is greedy. */
  function MatchLength(s: string): (r: Option<nat>)
    ensures r.Some? ==> 13 < r.value <= |s| && StartsWith(s, "public")
    ensures r.Some? ==> r.value == |s| || !IsWord(s[r.value])
  {
    if |s| < 6 || s[..6] != "public" then None
    else
      var w1 := SpaceRun(s[6..]);
      if w1 == 0 || |s| < 11 + w1 || s[6 + w1..11 + w1] != "class" then None
      else
        var w2 := SpaceRun(s[11 + w1..]);
        if w2 == 0 then None
        else
          var w := WordRun(s[11 + w1 + w2..]);
          if w == 0 then None else Some(11 + w1 + w2 + w)
  }

  /** A run of at least `w` characters of a class, followed by one outside it,
      is exactly `w` long. */
  lemma SpaceRunExact(s: string, w: nat)
    requires w < |s| && AllSpace(s[..w]) && !IsSpace(s[w])
    ensures SpaceRun(s) == w
  {
  }

  lemma {:induction false} WordRunAtLeast(s: string, w: nat)
    requires w <= |s| && AllWord(s[..w])
    ensures WordRun(s) >= w
    decreases w
  {
    if w > 0 {
      assert IsWord(s[..w][0]);
      assert s[1..][..w - 1] == s[..w][1..];
      WordRunAtLeast(s[1..], w - 1);
    }
  }

  /** What MatchLength finds is a match of the pattern. */
  lemma MatchLengthSound(s: string)
    requires MatchLength(s).Some?
    ensures PatternMatches(s, MatchLength(s).value)
  {
    var w1 := SpaceRun(s[6..]);
    var w2 := SpaceRun(s[11 + w1..]);
    var n := MatchLength(s).value;
    assert s[6..][..w1] == s[6..6 + w1];
    assert s[11 + w1..][..w2] == s[11 + w1..11 + w1 + w2];
    assert s[11 + w1 + w2..][..n - (11 + w1 + w2)] == s[11 + w1 + w2..n];
    assert MatchShape(s, n, w1, w2);
  }

  /** Every matching prefix is found, and none is longer than what MatchLength returns. */
  lemma MatchLengthMaximal(s: string, n: int, w1: int, w2: int)
    requires MatchShape(s, n, w1, w2)
    ensures MatchLength(s).Some? && n <= MatchLength(s).value
  {
    assert s[6..][..w1] == s[6..6 + w1];
    assert s[6..][w1] == s[6 + w1..11 + w1][0] == 'c';
    SpaceRunExact(s[6..], w1);
    assert s[11 + w1..][..w2] == s[11 + w1..11 + w1 + w2];
    assert s[11 + w1..][w2] == s[11 + w1 + w2..n][0];
    SpaceRunExact(s[11 + w1..], w2);
    assert s[11 + w1 + w2..][..n - (11 + w1 + w2)] == s[11 + w1 + w2..n];
    WordRunAtLeast(s[11 + w1 + w2..], n - (11 + w1 + w2));
  }

  /** MatchLength finds a match exactly when the pattern matches some prefix,
      and then it is the longest matching prefix, which is the one a
      backtracking engine with greedy quantifiers returns. */
  lemma MatchLengthIsLongest(s: string)
    ensures MatchLength(s).Some? ==> PatternMatches(s, MatchLength(s).value)
    ensures forall n :: PatternMatches(s, n) ==> MatchLength(s).Some? && n <= MatchLength(s).value
  {
    if MatchLength(s).Some? {
      MatchLengthSound(s);
    }
    forall n | PatternMatches(s, n)
      ensures MatchLength(s).Some? && n <= MatchLength(s).value
    {
      var w1, w2 :| MatchShape(s, n, w1, w2);
      MatchLengthMaximal(s, n, w1, w2);
    }
  }

  /** `code.replace(/public\s+class\s+\w+/g, "public class Main")`: a
      left-to-right scan that replaces each match and resumes after it. */
  function RenamePublicClass(s: string): (r: string)
    ensures r == [] <==> s == []
    decreases |s|
  {
    if s == [] then []
    else
      match MatchLength(s)
      case Some(n) => Replacement + RenamePublicClass(s[n..])
      case None => [s[0]] + RenamePublicClass(s[1..])
  }

  /** No match of the pattern starts anywhere in `s`. */
  ghost predicate NoOccurrence(s: string)
  {
    forall i, n :: 0 <= i <= |s| ==> !PatternMatches(s[i..], n)
  }

  /** Source without a `public class` declaration is submitted unchanged. */
  lemma {:induction false} RenameWithoutOccurrence(s: string)
    requires NoOccurrence(s)
    ensures RenamePublicClass(s) == s
    decreases |s|
  {
    if s != [] {
      assert s[0..] == s;
      MatchLengthIsLongest(s);
      forall i, n | 0 <= i <= |s[1..]| ensures !PatternMatches(s[1..][i..], n) {
        assert s[1..][i..] == s[i + 1..];
      }
      RenameWithoutOccurrence(s[1..]);
    }
  }

  /** One step of the scan where no match starts: the character is copied. */
  lemma RenameCopies(s: string)
    requires s != [] && MatchLength(s).None?
    ensures RenamePublicClass(s) == [s[0]] + RenamePublicClass(s[1..])
  {
  }

  /** One step of the scan where a match starts: it is replaced. */
  lemma RenameReplaces(s: string, n: nat)
    requires MatchLength(s) == Some(n)
    ensures RenamePublicClass(s) == Replacement + RenamePublicClass(s[n..])
  {
  }

  /** No match starts in `s` before index `k`. */
  predicate NoMatchBefore(s: string, k: int)
    decreases |s|
  {
    k <= 0 || s == [] || (MatchLength(s).None? && NoMatchBefore(s[1..], k - 1))
  }

  /** Every match contains the keyword `class`. */
  lemma MatchNeedsKeyword(s: string)
    ensures MatchLength(s).Some? ==> Contains(s, "class")
  {
    if MatchLength(s).Some? {
      var w1 := SpaceRun(s[6..]);
      assert OccursAt(s, "class", 6 + w1);
      ContainsIff(s, "class");
    }
  }

  /** Source in which the keyword `class` does not occur is submitted unchanged. */
  lemma {:induction false} RenameWithoutKeyword(s: string)
    ensures !Contains(s, "class") ==> RenamePublicClass(s) == s
    decreases |s|
  {
    if s != [] && !Contains(s, "class") {
      MatchNeedsKeyword(s);
      RenameWithoutKeyword(s[1..]);
      RenameCopies(s);
    }
  }

  /** A copied character stays in front of whatever the rest of the scan produces. */
  lemma RenameCopiesPrefix(before: string, rest: string, tail: string)
    requires before != [] && MatchLength(before + rest).None?
    requires RenamePublicClass(before[1..] + rest) == before[1..] + tail
    ensures RenamePublicClass(before + rest) == before + tail
  {
    var s := before + rest;
    calc {
      RenamePublicClass(s);
    == { RenameCopies(s); }
      [s[0]] + RenamePublicClass(s[1..]);
    == { assert s[1..] == before[1..] + rest; }
      [before[0]] + (before[1..] + tail);
    == { assert [before[0]] + before[1..] == before; }
      before + tail;
    }
  }

  /** The scan is leftmost-first: text before the first match is copied, the
      first match becomes `public class Main`, and the scan resumes right
      after the match. Together with MatchLengthIsLongest this pins down
      the global replacement. */
  lemma {:induction false} RenameLeftmost(before: string, rest: string, n: nat)
    requires NoMatchBefore(before + rest, |before|)
    requires MatchLength(rest) == Some(n)
    ensures RenamePublicClass(before + rest) == before + (Replacement + RenamePublicClass(rest[n..]))
    decreases |before|
  {
    if before == [] {
      assert before + rest == rest;
      RenameReplaces(rest, n);
    } else {
      assert (before + rest)[1..] == before[1..] + rest;
      RenameLeftmost(before[1..], rest, n);
      RenameCopiesPrefix(before, rest, Replacement + RenamePublicClass(rest[n..]));
    }
  }

  /** A run of exactly `w` word characters, ended by the end of the string
      or by another character, is what WordRun measures. */
  lemma {:induction false} WordRunExact(s: string, w: nat)
    requires w <= |s| && AllWord(s[..w]) && (w == |s| || !IsWord(s[w]))
    ensures WordRun(s) == w
    decreases w
  {
    if w > 0 {
      assert IsWord(s[..w][0]);
      assert s[1..][..w - 1] == s[..w][1..];
      WordRunExact(s[1..], w - 1);
    }
  }

  /** A declaration `public class <name>` written with single spaces is a
      match that ends exactly where the class name ends. */
  lemma MatchDeclaration(name: string, rest: string)
    requires name != [] && AllWord(name)
    requires rest == [] || !IsWord(rest[0])
    ensures MatchLength("public class " + name + rest) == Some(13 + |name|)
  {
    var s := "public class " + name + rest;
    assert s[..6] == "public";
    assert SpaceRun(s[6..]) == 1 by {
      assert s[6..][..1] == " " && s[6..][1] == 'c';
      SpaceRunExact(s[6..], 1);
    }
    assert s[7..12] == "class";
    assert SpaceRun(s[12..]) == 1 by {
      assert s[12..][..1] == " " && s[12..][1] == name[0];
      assert IsWord(name[0]);
      SpaceRunExact(s[12..], 1);
    }
    assert WordRun(s[13..]) == |name| by {
      assert s[13..] == name + rest;
      assert (name + rest)[..|name|] == name;
      WordRunExact(name + rest, |name|);
    }
  }

  /** A Java declaration is renamed: the class name, however long, becomes
      `Main`, and the text after it is scanned on. */
  lemma RenameDeclaration(name: string, rest: string)
    requires name != [] && AllWord(name)
    requires rest == [] || !IsWord(rest[0])
    ensures RenamePublicClass("public class " + name + rest) == Replacement + RenamePublicClass(rest)
  {
    var s := "public class " + name + rest;
    MatchDeclaration(name, rest);
    assert s[13 + |name|..] == rest;
    RenameReplaces(s, 13 + |name|);
  }

  /** A source made of one declaration followed by text without the keyword
      `class` is renamed at the declaration only. */
  lemma RenameSingleDeclaration(name: string, rest: string)
    requires name != [] && AllWord(name)
    requires (rest == [] || !IsWord(rest[0])) && !Contains(rest, "class")
    ensures RenamePublicClass("public class " + name + rest) == "public class Main" + rest
  {
    RenameDeclaration(name, rest);
    RenameWithoutKeyword(rest);
  }

  /** Standard input for Java: `if (input && !input.endsWith("\n")) input += "\n"`. */
  function TerminateInput(input: string): (r: string)
    ensures input == "" <==> r == ""
    ensures input != "" ==> EndsWith(r, "\n")
    ensures StartsWith(r, input) && |r| <= |input| + 1
    ensures EndsWith(input, "\n") ==> r == input
  {
    if input != "" && !EndsWith(input, "\n") then input + "\n" else input
  }

  /** Terminating twice changes nothing more. */
  lemma TerminateInputIdempotent(input: string)
    ensures TerminateInput(TerminateInput(input)) == TerminateInput(input)
  {
  }
}
