/**
 * Normalisation of the slash and dash symbols in literal values: both
 * end up surrounded by single spaces whatever spacing the text had.
 */
module SymbolsNormalisation {
  import opened Wrappers
  import opened JavaStrings

  /** The two slash steps: " / " is first collapsed to "/", then every "/" is padded. */
  function NormaliseSlashes(s: string): string
  {
    Replace(Replace(s, " / ", "/"), "/", " / ")
  }

  /** The two dash steps, the same for "-". */
  function NormaliseDashes(s: string): string
  {
    Replace(Replace(s, " - ", "-"), "-", " - ")
  }

  /** normalise: the slash steps, then the dash steps. */
  function Normalise(s: string): string
  {
    NormaliseDashes(NormaliseSlashes(s))
  }

  /** Every occurrence of `c` replaced by `rep`, one character at a time. */
  function Expand(s: string, c: char, rep: string): (r: string)
    ensures c !in rep ==> c !in r
    decreases |s|
  {
    if |s| == 0 then ""
    else if s[0] == c then rep + Expand(s[1..], c, rep)
    else [s[0]] + Expand(s[1..], c, rep)
  }

  /** Replacing a one-character pattern is expanding that character. */
  lemma {:induction false} ReplaceCharIsExpand(s: string, c: char, rep: string)
    ensures Replace(s, [c], rep) == Expand(s, c, rep)
    decreases |s|
  {
    if |s| > 0 {
      ReplaceCharIsExpand(s[1..], c, rep);
      if s[0] == c {
        ReplaceLeadingChar(s, c, rep);
      } else {
        ReplaceOtherLeadingChar(s, c, rep);
      }
    }
  }

  /** A text starting with `c` has its first `c` replaced, then the rest. */
  lemma ReplaceLeadingChar(s: string, c: char, rep: string)
    requires |s| > 0 && s[0] == c
    ensures Replace(s, [c], rep) == rep + Replace(s[1..], [c], rep)
  {
    assert s[..1] == [c];
    assert IndexOf(s, [c]) == Some(0);
  }

  /** A text starting with another character keeps it and replaces in the rest. */
  lemma ReplaceOtherLeadingChar(s: string, c: char, rep: string)
    requires |s| > 0 && s[0] != c
    ensures Replace(s, [c], rep) == [s[0]] + Replace(s[1..], [c], rep)
  {
    assert s[..1] != [c];
    if IndexOf(s[1..], [c]).None? {
      ReplaceOtherLeadingCharAbsent(s, c, rep);
    } else {
      ReplaceOtherLeadingCharPresent(s, c, rep, IndexOf(s[1..], [c]).value);
    }
  }

  lemma ReplaceOtherLeadingCharAbsent(s: string, c: char, rep: string)
    requires |s| > 0 && s[0] != c && s[..1] != [c]
    requires IndexOf(s[1..], [c]).None?
    ensures Replace(s, [c], rep) == [s[0]] + Replace(s[1..], [c], rep)
  {
    assert IndexOf(s, [c]).None?;
    assert s == [s[0]] + s[1..];
  }

  lemma ReplaceOtherLeadingCharPresent(s: string, c: char, rep: string, i: nat)
    requires |s| > 0 && s[0] != c && s[..1] != [c]
    requires IndexOf(s[1..], [c]) == Some(i)
    ensures Replace(s, [c], rep) == [s[0]] + Replace(s[1..], [c], rep)
  {
    assert IndexOf(s, [c]) == Some(i + 1);
    assert s[..i + 1] == [s[0]] + s[1..][..i];
    assert s[i + 2..] == s[1..][i + 1..];
  }

  /** Every `c` in the text is preceded and followed by a space. */
  ghost predicate Flanked(r: string, c: char)
  {
    forall i :: 0 <= i < |r| && r[i] == c ==> 0 < i < |r| - 1 && r[i - 1] == ' ' && r[i + 1] == ' '
  }

  /** Expanding `c` into " c " leaves every `c` flanked by spaces. */
  lemma {:induction false} ExpandFlanks(s: string, c: char)
    requires c != ' '
    ensures Flanked(Expand(s, c, [' ', c, ' ']), c)
    decreases |s|
  {
    if |s| > 0 {
      var rest := Expand(s[1..], c, [' ', c, ' ']);
      ExpandFlanks(s[1..], c);
      var r := Expand(s, c, [' ', c, ' ']);
      var p := if s[0] == c then 3 else 1;
      assert r[p..] == rest;
      forall i | 0 <= i < |r| && r[i] == c
        ensures 0 < i < |r| - 1 && r[i - 1] == ' ' && r[i + 1] == ' '
      {
        if i >= p {
          assert rest[i - p] == c;
          if i - p == 0 {
            assert false;
          }
          assert r[i - 1] == rest[i - p - 1];
          assert r[i + 1] == rest[i - p + 1];
        }
      }
    }
  }

  /** After the slash steps every "/" stands between two spaces. */
  lemma SlashesFlanked(s: string)
    ensures Flanked(NormaliseSlashes(s), '/')
  {
    var collapsed := Replace(s, " / ", "/");
    ReplaceCharIsExpand(collapsed, '/', " / ");
    ExpandFlanks(collapsed, '/');
  }

  /** In the normalised text every "-" stands between two spaces. */
  lemma DashesFlanked(s: string)
    ensures Flanked(Normalise(s), '-')
  {
    var collapsed := Replace(NormaliseSlashes(s), " - ", "-");
    ReplaceCharIsExpand(collapsed, '-', " - ");
    ExpandFlanks(collapsed, '-');
  }

  /** A text without slashes and dashes is left as it is. */
  lemma NormaliseWithoutSymbols(s: string)
    requires '/' !in s && '-' !in s
    ensures Normalise(s) == s
  {
    ReplaceAbsent(s, " / ", 1, "/");
    ReplaceAbsent(s, "/", 0, " / ");
    ReplaceAbsent(s, " - ", 1, "-");
    ReplaceAbsent(s, "-", 0, " - ");
  }

  /** " / " occurs first where it is put between two slash-free texts. */
  lemma IndexOfPaddedSlash(a: string, b: string)
    requires '/' !in a
    ensures IndexOf(a + " / " + b, " / ") == Some(|a|)
  {
    var s := a + " / " + b;
    assert OccursAt(s, " / ", |a|) by {
      assert s[|a|..|a| + 3] == " / ";
    }
    forall j | 0 <= j < |a|
      ensures !OccursAt(s, " / ", j)
    {
      assert s[j..j + 3][1] == s[j + 1];
      if j + 1 < |a| {
        assert s[j + 1] == a[j + 1];
      }
    }
  }

  /** Collapsing " / " in "a / b" gives "a/b" when neither part holds a slash. */
  lemma CollapsePaddedSlash(a: string, b: string)
    requires '/' !in a && '/' !in b
    ensures Replace(a + " / " + b, " / ", "/") == a + "/" + b
  {
    var padded := a + " / " + b;
    IndexOfPaddedSlash(a, b);
    assert padded[|a| + 3..] == b;
    assert padded[..|a|] == a;
    ReplaceAbsent(b, " / ", 1, "/");
  }

  /** "a/b" holds no " / " when the parts hold no slash and do not touch it with a space. */
  lemma NoPaddedSlashInTight(a: string, b: string)
    requires '/' !in a && '/' !in b
    requires |a| == 0 || a[|a| - 1] != ' '
    requires |b| == 0 || b[0] != ' '
    ensures IndexOf(a + "/" + b, " / ").None?
  {
    var tight := a + "/" + b;
    forall k | 0 <= k
      ensures !OccursAt(tight, " / ", k)
    {
      if k + 3 <= |tight| {
        assert tight[k..k + 3][0] == tight[k];
        assert tight[k..k + 3][1] == tight[k + 1];
        if k + 1 < |a| {
          assert tight[k + 1] == a[k + 1];
        } else if k + 1 == |a| {
          assert tight[k] == a[|a| - 1];
        } else if k > |a| {
          assert tight[k + 1] == b[k - |a|];
        }
      }
    }
  }

  /**
   * "x/y" and "x / y" normalise to the same text when neither part holds a
   * slash and the slash is not already next to a space.
   */
  lemma SlashSpacingIrrelevant(a: string, b: string)
    requires '/' !in a && '/' !in b
    requires |a| == 0 || a[|a| - 1] != ' '
    requires |b| == 0 || b[0] != ' '
    ensures Normalise(a + "/" + b) == Normalise(a + " / " + b)
  {
    CollapsePaddedSlash(a, b);
    NoPaddedSlashInTight(a, b);
  }
}
