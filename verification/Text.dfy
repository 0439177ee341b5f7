/** Line-ending normalisation and the two-way conversion between a text and its lines. */
module Text {

  type Line = string

  /** Replace every CRLF by LF, scanning left to right. Not idempotent: "\r\r\n" needs two rounds. */
  function NormCrlf(s: string): string {
    if s == "" then ""
    else if |s| >= 2 && s[0] == '\r' && s[1] == '\n' then "\n" + NormCrlf(s[2..])
    else [s[0]] + NormCrlf(s[1..])
  }

  /** Replace every CRLF and every lone CR by LF. */
  function NormEol(s: string): string {
    if s == "" then ""
    else if s[0] == '\r' then "\n" + NormEol(if |s| >= 2 && s[1] == '\n' then s[2..] else s[1..])
    else [s[0]] + NormEol(s[1..])
  }

  /** Drop the run of LFs at the end: what is left does not end in LF, and LFs are all that is
      missing. */
  function StripTrailingLf(s: string): (r: string)
    ensures r <= s && (forall i :: |r| <= i < |s| ==> s[i] == '\n')
    ensures r != "" ==> r[|r| - 1] != '\n'
  {
    if s != "" && s[|s| - 1] == '\n' then StripTrailingLf(s[..|s| - 1]) else s
  }

  /** The pieces between separators, by default the lines between LFs. Without a separator
      there is one piece; the empty text is one empty piece. */
  function Split(s: string, sep: char := '\n'): (r: seq<string>)
    ensures |r| >= 1
  {
    if s == "" then [""]
    else if s[0] == sep then [""] + Split(s[1..], sep)
    else var r := Split(s[1..], sep); [[s[0]] + r[0]] + r[1..]
  }

  /** The lines of a text; unlike `Split`, the empty text has none. */
  function SplitLines(s: string): seq<Line> {
    if s == "" then [] else Split(s)
  }

  function Join(ls: seq<string>, sep: char := '\n'): string {
    if ls == [] then ""
    else if |ls| == 1 then ls[0]
    else ls[0] + [sep] + Join(ls[1..], sep)
  }

  lemma {:induction false} JoinSplit(s: string, sep: char := '\n')
    ensures Join(Split(s, sep), sep) == s
  {
    if s != "" {
      JoinSplit(s[1..], sep);
      var r := Split(s[1..], sep);
      if s[0] == sep {
        assert ([""] + r)[1..] == r;
        assert "" + [sep] + Join(r, sep) == s;
      } else {
        var t := [[s[0]] + r[0]] + r[1..];
        assert t[1..] == r[1..];
        assert Join(t, sep) == [s[0]] + Join(r, sep);
      }
    }
  }

  /** Joining the lines of a text gives the text back. */
  lemma JoinSplitLines(s: string)
    ensures Join(SplitLines(s)) == s
  {
    if s != "" { JoinSplit(s); }
  }

  /** Different texts have different lines. */
  lemma SplitLinesInjective(s: string, t: string)
    requires SplitLines(s) == SplitLines(t)
    ensures s == t
  {
    JoinSplitLines(s);
    JoinSplitLines(t);
  }

  lemma {:induction false} PiecesHaveNoSeparator(s: string, sep: char := '\n')
    ensures forall l :: l in Split(s, sep) ==> sep !in l
  {
    if s != "" { PiecesHaveNoSeparator(s[1..], sep); }
  }

  lemma {:induction false} SplitOnePiece(s: string, sep: char := '\n')
    requires sep !in s
    ensures Split(s, sep) == [s]
  {
    if s != "" {
      SplitOnePiece(s[1..], sep);
      assert [s[0]] + s[1..] == s;
    }
  }

  lemma {:induction false} SplitAtSeparator(l: string, rest: string, sep: char := '\n')
    requires sep !in l
    ensures Split(l + [sep] + rest, sep) == [l] + Split(rest, sep)
  {
    var s := l + [sep] + rest;
    if l == "" {
      assert s[1..] == rest;
    } else {
      assert s[1..] == l[1..] + [sep] + rest;
      SplitAtSeparator(l[1..], rest, sep);
      assert [l[0]] + l[1..] == l;
      assert Split(s, sep) == [[l[0]] + l[1..]] + Split(rest, sep);
    }
  }

  /** A separator, wherever it stands, splits the text in two. */
  lemma {:induction false} SplitAcross(a: string, b: string, sep: char := '\n')
    ensures Split(a + [sep] + b, sep) == Split(a, sep) + Split(b, sep)
    decreases |a|
  {
    if a == "" {
      assert ("" + [sep] + b)[1..] == b;
    } else {
      Behind(a, [sep], b, 1);
      SplitStep(a, sep);
      SplitStep(a + [sep] + b, sep);
      hide Split;
      SplitAcross(a[1..], b, sep);
      SameStep(a[0] == sep, a[0], Split(a[1..], sep), Split(b, sep));
    }
  }

  function Step(cut: bool, c: char, r: seq<string>): seq<string>
    requires |r| >= 1
  {
    if cut then [""] + r else [[c] + r[0]] + r[1..]
  }

  lemma SplitStep(s: string, sep: char)
    requires s != ""
    ensures Split(s, sep) == Step(s[0] == sep, s[0], Split(s[1..], sep))
  {
  }

  lemma SameStep(cut: bool, c: char, r: seq<string>, t: seq<string>)
    requires |r| >= 1
    ensures Step(cut, c, r + t) == Step(cut, c, r) + t
  {
    assert (r + t)[0] == r[0] && (r + t)[1..] == r[1..] + t;
  }

  /** The other way round: pieces without the separator survive being joined and split. */
  lemma {:induction false} SplitJoin(ls: seq<string>, sep: char := '\n')
    requires ls != []
    requires forall l :: l in ls ==> sep !in l
    ensures Split(Join(ls, sep), sep) == ls
  {
    if |ls| == 1 {
      SplitOnePiece(ls[0], sep);
    } else {
      SplitJoin(ls[1..], sep);
      SplitAtSeparator(ls[0], Join(ls[1..], sep), sep);
    }
  }

  // ----- what normalising does, and all it does -----

  lemma Behind(a: string, m: string, b: string, k: nat)
    requires 1 <= k <= |a| && m != ""
    ensures var s := a + m + b;
            && |s| >= 2 && s[0] == a[0] && s[1] == (if |a| >= 2 then a[1] else m[0])
            && s[k..] == a[k..] + m + b
  {
  }

  lemma Regroup(x: string, y: string, m: string, z: string)
    ensures x + (y + m + z) == x + y + m + z
  {
  }

  predicate HasCrlf(s: string) { exists i :: 0 <= i < |s| - 1 && s[i] == '\r' && s[i + 1] == '\n' }

  /** A text without CRLF is left alone. */
  lemma {:induction false} NormCrlfKeeps(s: string)
    requires !HasCrlf(s)
    ensures NormCrlf(s) == s
  {
    if s != "" {
      assert |s| >= 2 ==> !(s[0] == '\r' && s[0 + 1] == '\n');
      forall i | 0 <= i < |s[1..]| - 1 ensures !(s[1..][i] == '\r' && s[1..][i + 1] == '\n') {
        assert s[1..][i] == s[i + 1] && s[1..][i + 1] == s[(i + 1) + 1];
      }
      NormCrlfKeeps(s[1..]);
    }
  }

  /** A CRLF, wherever it stands, becomes an LF, and the text before and behind it is normalised
      by itself. With `NormCrlfKeeps` this says what becomes of every text. */
  lemma {:induction false} NormCrlfAt(a: string, b: string)
    ensures NormCrlf(a + "\r\n" + b) == NormCrlf(a) + "\n" + NormCrlf(b)
    decreases |a|
  {
    if a == "" {
      assert ("" + "\r\n" + b)[2..] == b;
    } else if |a| >= 2 && a[0] == '\r' && a[1] == '\n' {
      Behind(a, "\r\n", b, 2);
      NormCrlfAt(a[2..], b);
      Regroup("\n", NormCrlf(a[2..]), "\n", NormCrlf(b));
    } else {
      Behind(a, "\r\n", b, 1);
      NormCrlfAt(a[1..], b);
      Regroup([a[0]], NormCrlf(a[1..]), "\n", NormCrlf(b));
    }
  }

  /** A lone LF separates as well. */
  lemma {:induction false} NormCrlfAtLf(a: string, b: string)
    requires a == "" || a[|a| - 1] != '\r'
    ensures NormCrlf(a + "\n" + b) == NormCrlf(a) + "\n" + NormCrlf(b)
    decreases |a|
  {
    if a == "" {
      assert ("" + "\n" + b)[1..] == b;
    } else if |a| >= 2 && a[0] == '\r' && a[1] == '\n' {
      Behind(a, "\n", b, 2);
      NormCrlfAtLf(a[2..], b);
      Regroup("\n", NormCrlf(a[2..]), "\n", NormCrlf(b));
    } else {
      Behind(a, "\n", b, 1);
      NormCrlfAtLf(a[1..], b);
      Regroup([a[0]], NormCrlf(a[1..]), "\n", NormCrlf(b));
    }
  }

  /** A text without CR is left alone. */
  lemma {:induction false} NormEolKeeps(s: string)
    requires '\r' !in s
    ensures NormEol(s) == s
  {
    if s != "" { NormEolKeeps(s[1..]); }
  }

  lemma {:induction false} NormEolHasNoCr(s: string)
    ensures '\r' !in NormEol(s)
  {
    if s != "" { NormEolHasNoCr(if s[0] == '\r' && |s| >= 2 && s[1] == '\n' then s[2..] else s[1..]); }
  }

  /** A CRLF, wherever it stands, becomes an LF. */
  lemma {:induction false} NormEolAtCrlf(a: string, b: string)
    ensures NormEol(a + "\r\n" + b) == NormEol(a) + "\n" + NormEol(b)
    decreases |a|
  {
    if a == "" {
      assert ("" + "\r\n" + b)[2..] == b;
    } else if |a| >= 2 && a[0] == '\r' && a[1] == '\n' {
      Behind(a, "\r\n", b, 2);
      NormEolAtCrlf(a[2..], b);
      Regroup("\n", NormEol(a[2..]), "\n", NormEol(b));
    } else {
      Behind(a, "\r\n", b, 1);
      NormEolAtCrlf(a[1..], b);
      Regroup(if a[0] != '\r' then [a[0]] else "\n", NormEol(a[1..]), "\n", NormEol(b));
    }
  }

  /** So does a CR that no LF follows. */
  lemma {:induction false} NormEolAtCr(a: string, b: string)
    requires b == "" || b[0] != '\n'
    ensures NormEol(a + "\r" + b) == NormEol(a) + "\n" + NormEol(b)
    decreases |a|
  {
    if a == "" {
      assert ("" + "\r" + b)[1..] == b;
    } else if |a| >= 2 && a[0] == '\r' && a[1] == '\n' {
      Behind(a, "\r", b, 2);
      NormEolAtCr(a[2..], b);
      Regroup("\n", NormEol(a[2..]), "\n", NormEol(b));
    } else {
      Behind(a, "\r", b, 1);
      NormEolAtCr(a[1..], b);
      Regroup(if a[0] != '\r' then [a[0]] else "\n", NormEol(a[1..]), "\n", NormEol(b));
    }
  }

  // ----- a text as an editor writes it -----

  datatype Eol = Lf | CrLf

  /** The lines with those line ends between them. */
  ghost function Written(ls: seq<Line>, ends: seq<Eol>): string
    requires |ends| >= |ls|
    decreases |ls|
  {
    if ls == [] then ""
    else if |ls| == 1 then ls[0]
    else ls[0] + (if ends[0] == Lf then "\n" else "\r\n") + Written(ls[1..], ends[1..])
  }

  /** Lines that can be told from their line ends: without LF and not ending in CR. */
  ghost predicate PlainLine(l: Line) { '\n' !in l && (l == "" || l[|l| - 1] != '\r') }

  /** Whatever line ends a text is written with, normalising gives its lines joined by LF. */
  lemma {:induction false} NormOfWritten(ls: seq<Line>, ends: seq<Eol>)
    requires |ends| >= |ls| && forall l :: l in ls ==> PlainLine(l)
    ensures NormCrlf(Written(ls, ends)) == Join(ls)
    decreases |ls|
  {
    if ls != [] {
      assert PlainLine(ls[0]);
      assert !HasCrlf(ls[0]) by { assert forall i :: 0 <= i < |ls[0]| ==> ls[0][i] in ls[0]; }
      NormCrlfKeeps(ls[0]);
      if |ls| > 1 {
        NormOfWritten(ls[1..], ends[1..]);
        if ends[0] == Lf {
          NormCrlfAtLf(ls[0], Written(ls[1..], ends[1..]));
        } else {
          NormCrlfAt(ls[0], Written(ls[1..], ends[1..]));
        }
      }
    }
  }

  /** The lines of a text joined from lines, none only for the empty text. */
  lemma LinesOfJoined(ls: seq<Line>)
    requires forall l :: l in ls ==> '\n' !in l
    requires ls != [] && ls != [""]
    ensures SplitLines(Join(ls)) == ls
  {
    SplitJoin(ls);
    assert Split("") == [""];
  }

  lemma NoLinesIff(s: string)
    ensures SplitLines(s) == [] <==> s == ""
  {
  }

  /** A text re-saved with CRLF line ends, whichever of CRLF and LF it had. */
  ghost function ToCrlf(s: string): string {
    if s == "" then ""
    else if |s| >= 2 && s[0] == '\r' && s[1] == '\n' then "\r\n" + ToCrlf(s[2..])
    else (if s[0] == '\n' then "\r\n" else [s[0]]) + ToCrlf(s[1..])
  }

  /** Normalising a CRLF re-save of a text gives what normalising the text itself gives. */
  lemma {:induction false} NormUndoesCrlfSave(s: string)
    ensures NormCrlf(ToCrlf(s)) == NormCrlf(s)
    ensures ToCrlf(s) != "" ==> ToCrlf(s)[0] != '\n'
  {
    if s == "" {
    } else if |s| >= 2 && s[0] == '\r' && s[1] == '\n' {
      NormUndoesCrlfSave(s[2..]);
      assert ("\r\n" + ToCrlf(s[2..]))[2..] == ToCrlf(s[2..]);
    } else {
      var t := ToCrlf(s[1..]);
      NormUndoesCrlfSave(s[1..]);
      if s[0] == '\n' {
        assert ("\r\n" + t)[2..] == t;
      } else {
        assert ([s[0]] + t)[1..] == t;
      }
    }
  }
}
