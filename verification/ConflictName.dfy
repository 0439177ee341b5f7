/** The names of conflict copies and kept-both notes, and the parser that recovers the original.
    The parser's regular expression is spelled out position by position. */
module ConflictName {
  import opened Wrappers

  // ----- a path in three parts -----

  /** The last position of `c`, or -1. */
  function LastIndexOf(s: string, c: char): (i: int)
    ensures -1 <= i < |s|
    ensures i >= 0 ==> s[i] == c
    ensures forall j :: i < j < |s| ==> s[j] != c
  {
    if s == "" then -1
    else if s[|s| - 1] == c then |s| - 1
    else LastIndexOf(s[..|s| - 1], c)
  }

  datatype Parts = Parts(dir: string, stem: string, ext: string)

  /** Directory up to the last slash, and the rest. */
  function SplitDir(path: string): (string, string) {
    var slash := LastIndexOf(path, '/');
    (path[..slash + 1], path[slash + 1..])
  }

  /** The extension starts at the last dot, unless that dot starts the name. */
  function SplitExt(name: string): (string, string) {
    var dot := LastIndexOf(name, '.');
    if dot > 0 then (name[..dot], name[dot..]) else (name, "")
  }

  function SplitPath(path: string): Parts {
    var (dir, name) := SplitDir(path);
    var (stem, ext) := SplitExt(name);
    Parts(dir, stem, ext)
  }

  function Whole(t: Parts): string { t.dir + t.stem + t.ext }

  // ----- numbers and dates -----

  function Digits(n: nat): (s: string)
    ensures s != "" && AllDigits(s)
  {
    if n < 10 then [['0', '1', '2', '3', '4', '5', '6', '7', '8', '9'][n]]
    else Digits(n / 10) + Digits(n % 10)
  }

  function Decimal(n: int): string { if n < 0 then "-" + Digits(-n) else Digits(n) }

  function Pad(n: nat): string { if n < 10 then "0" + Digits(n) else Digits(n) }

  /** A date in UTC; `month` counts from zero. */
  datatype When = When(year: int, month: nat, day: nat, hour: nat, minute: nat, second: nat)

  predicate IsDate(t: When) {
    t.month < 12 && 1 <= t.day <= 31 && t.hour < 24 && t.minute < 60 && t.second < 60
  }

  function Stamp(t: When): string {
    Decimal(t.year) + Pad(t.month + 1) + Pad(t.day) + Pad(t.hour) + Pad(t.minute) + Pad(t.second)
  }

  // ----- the two names -----

  function Suffix(tag: string): string { if tag == "" then "" else "-" + tag }

  /** What a conflict copy has between stem and extension; `w` is the stamp with its tag. */
  function Marker(device: string, w: string): string { " (conflict " + device + " " + w + ")" }

  function Inserted(path: string, text: string): string {
    var t := SplitPath(path);
    t.dir + t.stem + text + t.ext
  }

  function ConflictCopyName(path: string, device: string, t: When, tag: string): string {
    Inserted(path, Marker(device, Stamp(t) + Suffix(tag)))
  }

  function Day(t: When): string { Decimal(t.year) + "-" + Pad(t.month + 1) + "-" + Pad(t.day) }

  /** What a kept-both note has there; the counter shows from the second note of a day on. */
  function Label(t: When, n: nat): string {
    LabelHead() + Day(t) + Counter(n) + ")"
  }

  function LabelHead(): string { " (this device's version " }

  function Counter(n: nat): (s: string)
    ensures '/' !in s && '.' !in s
  {
    if n != 0 then " " + Digits(n + 1) else ""
  }

  function KeptBothName(original: string, t: When, n: nat): string {
    Inserted(original, Label(t, n))
  }

  // ----- the parser -----

  predicate IsDigit(c: char) { '0' <= c <= '9' }

  predicate AllDigits(s: string) { forall i :: 0 <= i < |s| ==> IsDigit(s[i]) }

  predicate AllAlnum(s: string) {
    forall i :: 0 <= i < |s| ==> IsDigit(s[i]) || 'a' <= s[i] <= 'z' || 'A' <= s[i] <= 'Z'
  }

  predicate IsLineEnd(c: char) { c == '\n' || c == '\r' || c == '\U{2028}' || c == '\U{2029}' }

  /** What `.*` can match. */
  predicate OneLine(s: string) { forall i :: 0 <= i < |s| ==> !IsLineEnd(s[i]) }

  /** The letter `lower` in either case. */
  predicate Letter(c: char, lower: char)
    requires 'a' <= lower <= 'z'
  {
    c == lower || c as int == lower as int - 32
  }

  /** The length of " (conflict ". */
  const KEY := 11

  /** " (conflict ", in any case, at position `k`. */
  predicate KeyAt(s: string, k: int) {
    && 0 <= k <= |s| - KEY
    && s[k] == ' ' && s[k + 1] == '('
    && Letter(s[k + 2], 'c') && Letter(s[k + 3], 'o') && Letter(s[k + 4], 'n') && Letter(s[k + 5], 'f')
    && Letter(s[k + 6], 'l') && Letter(s[k + 7], 'i') && Letter(s[k + 8], 'c') && Letter(s[k + 9], 't')
    && s[k + 10] == ' '
  }

  /** Fourteen digits, then nothing or "-" and a tag. */
  predicate IsStamp(w: string) {
    && |w| >= 14 && AllDigits(w[..14])
    && (|w| == 14 || (w[14] == '-' && |w| > 15 && AllAlnum(w[15..])))
  }

  /** The text between the key and the closing parenthesis: something, a space, a stamp. */
  predicate IsBody(b: string) {
    exists i :: 0 < i < |b| && b[i] == ' ' && OneLine(b[..i]) && IsStamp(b[i + 1..])
  }

  /** The expression matches with its first group of length `k`. */
  predicate MatchesAt(stem: string, k: int) {
    && KeyAt(stem, k)
    && stem[|stem| - 1] == ')' && k + KEY < |stem|
    && OneLine(stem[..k])
    && IsBody(stem[k + KEY..|stem| - 1])
  }

  /** The longest first group, since the group is greedy. */
  function LongestMatch(stem: string, k: nat): (r: Option<int>)
    ensures r.Some? ==> 0 <= r.value <= k && MatchesAt(stem, r.value)
    ensures r.None? ==> forall j :: 0 <= j <= k ==> !MatchesAt(stem, j)
    ensures r.Some? ==> forall j :: r.value < j <= k ==> !MatchesAt(stem, j)
  {
    if MatchesAt(stem, k) then Some(k) else if k == 0 then None else LongestMatch(stem, k - 1)
  }

  function OriginalOfConflictCopy(path: string): Option<string> {
    var t := SplitPath(path);
    var k := LongestMatch(t.stem, |t.stem|);
    if k.None? then None else Some(t.dir + t.stem[..k.value] + t.ext)
  }

  // ----- where the expression matches -----

  /** A stamp has no space, so the body's only candidate split is at its last space. */
  lemma BodyIff(y: string, w: string)
    requires ' ' !in w
    ensures IsBody(y + " " + w) <==> y != "" && OneLine(y) && IsStamp(w)
  {
    var b := y + " " + w;
    assert b[..|y|] == y && b[|y|] == ' ' && b[|y| + 1..] == w;
    if IsBody(b) {
      var i :| 0 < i < |b| && b[i] == ' ' && OneLine(b[..i]) && IsStamp(b[i + 1..]);
      StampHasNoSpace(b[i + 1..]);
      IsLastIndex(b, ' ', i);
      IsLastIndex(b, ' ', |y|);
    }
  }

  lemma IsLastIndex(s: string, c: char, i: int)
    requires 0 <= i < |s| && s[i] == c && c !in s[i + 1..]
    ensures i == LastIndexOf(s, c)
  {
    forall j | i < j < |s| ensures s[j] != c {
      assert s[i + 1..][j - i - 1] == s[j];
    }
  }

  lemma StampHasNoSpace(w: string)
    requires IsStamp(w)
    ensures ' ' !in w
  {
    forall i | 0 <= i < |w| ensures w[i] != ' ' {
      if i < 14 { assert w[..14][i] == w[i]; }
      if i > 14 { assert w[15..][i - 15] == w[i]; }
    }
  }

  lemma BodyHasSpace(b: string)
    requires ' ' !in b
    ensures !IsBody(b)
  {
  }

  /** A stem of the form z, space, word, parenthesis matches exactly at those keys of `z` that
      have text behind them, provided all of `z` is one line and the word is a stamp. */
  lemma MatchIff(z: string, w: string, k: int)
    requires ' ' !in w
    ensures MatchesAt(z + " " + w + ")", k)
       <==> KeyAt(z, k) && k + KEY < |z| && OneLine(z) && IsStamp(w)
  {
    var s := z + " " + w + ")";
    var e := |s| - 1;
    assert s[e] == ')' && s[|z|] == ' ';
    assert s[|z| + 1..e] == w;
    if 0 <= k && k + KEY < |z| {
      var y := z[k + KEY..];
      assert s[k + KEY..e] == y + " " + w;
      BodyIff(y, w);
      assert s[..k] == z[..k];
      assert KeyAt(s, k) <==> KeyAt(z, k);
      if KeyAt(z, k) { OneLineAround(z, k); }
    } else if k + KEY == |z| + 1 && MatchesAt(s, k) {
      assert s[k + KEY..e] == w;
      BodyHasSpace(w);
    } else if MatchesAt(s, k) {
      LateSpace(z, w, k + KEY - 1);
    }
  }

  /** No space stands behind the last one. */
  lemma LateSpace(z: string, w: string, i: int)
    requires ' ' !in w && |z| < i < |z| + |w| + 2
    ensures (z + " " + w + ")")[i] != ' '
  {
    var s := z + " " + w + ")";
    if i < |s| - 1 { assert s[i] == w[i - |z| - 1]; }
  }

  /** The key itself contains no line end. */
  lemma OneLineAround(z: string, k: int)
    requires KeyAt(z, k)
    ensures OneLine(z) <==> OneLine(z[..k]) && OneLine(z[k + KEY..])
  {
    if OneLine(z[..k]) && OneLine(z[k + KEY..]) {
      forall i | 0 <= i < |z| ensures !IsLineEnd(z[i]) {
        if i < k { assert z[..k][i] == z[i]; }
        if i >= k + KEY { assert z[k + KEY..][i - k - KEY] == z[i]; }
      }
    }
  }

  // ----- what is inserted keeps the three parts -----

  lemma LastIndexAtLeast(s: string, c: char, i: int)
    requires 0 <= i < |s| && s[i] == c
    ensures LastIndexOf(s, c) >= i
  {
  }

  lemma LastIndexIs(s: string, c: char, i: int)
    requires -1 <= i < |s| && (i >= 0 ==> s[i] == c)
    requires forall j :: i < j < |s| ==> s[j] != c
    ensures LastIndexOf(s, c) == i
  {
  }

  /** A directory ends in a slash. */
  predicate IsDir(dir: string) { dir == "" || dir[|dir| - 1] == '/' }

  /** An extension starts with the only dot it has, behind a stem; without one no dot can be
      anywhere but in front. */
  predicate IsExt(stem: string, ext: string) {
    if ext == "" then '.' !in stem || (stem[0] == '.' && '.' !in stem[1..])
    else stem != "" && ext[0] == '.' && '.' !in ext[1..]
  }

  predicate AreParts(t: Parts) {
    IsDir(t.dir) && '/' !in t.stem && '/' !in t.ext && IsExt(t.stem, t.ext)
  }

  lemma SplitDirIs(dir: string, name: string)
    requires IsDir(dir) && '/' !in name
    ensures SplitDir(dir + name) == (dir, name)
  {
    var s := dir + name;
    assert s[..|dir|] == dir && s[|dir|..] == name;
    if dir == "" {
      LastIndexIs(s, '/', -1);
    } else {
      IsLastIndex(s, '/', |dir| - 1);
    }
  }

  lemma SplitExtIs(stem: string, ext: string)
    requires IsExt(stem, ext)
    ensures SplitExt(stem + ext) == (stem, ext)
  {
    var s := stem + ext;
    if ext != "" {
      assert s[..|stem|] == stem && s[|stem|..] == ext && s[|stem| + 1..] == ext[1..];
      IsLastIndex(s, '.', |stem|);
    } else {
      assert s == stem;
      if '.' in stem { IsLastIndex(s, '.', 0); }
    }
  }

  /** The parts of a path are recovered from it. */
  lemma SplitPathIs(t: Parts)
    requires AreParts(t)
    ensures SplitPath(Whole(t)) == t
  {
    hide SplitDir, SplitExt, IsDir, IsExt;
    assert t.dir + t.stem + t.ext == t.dir + (t.stem + t.ext);
    SplitDirIs(t.dir, t.stem + t.ext);
    SplitExtIs(t.stem, t.ext);
  }

  lemma DirOf(path: string)
    ensures var (dir, name) := SplitDir(path); IsDir(dir) && '/' !in name && dir + name == path
  {
  }

  lemma NoneBehind(s: string, c: char)
    ensures c !in s[LastIndexOf(s, c) + 1..]
  {
  }

  lemma ExtOf(name: string)
    ensures var (stem, ext) := SplitExt(name); IsExt(stem, ext) && stem + ext == name
  {
    var dot := LastIndexOf(name, '.');
    NoneBehind(name, '.');
    hide LastIndexOf;
    if dot > 0 {
      assert name[dot..][1..] == name[dot + 1..];
    } else {
      assert name[0..] == name;
    }
  }

  lemma PartsOf(path: string)
    ensures AreParts(SplitPath(path)) && Whole(SplitPath(path)) == path
  {
    hide SplitDir, SplitExt, IsDir, IsExt;
    var (dir, name) := SplitDir(path);
    var (stem, ext) := SplitExt(name);
    DirOf(path);
    ExtOf(name);
    assert dir + stem + ext == dir + (stem + ext);
  }

  /** Text without a slash, and without a dot when there is no extension, goes into the stem. */
  lemma PartsOfInserted(path: string, text: string)
    requires '/' !in text
    requires SplitPath(path).ext == "" ==> '.' !in text
    ensures var t := SplitPath(path);
      SplitPath(Inserted(path, text)) == Parts(t.dir, t.stem + text, t.ext)
  {
    hide SplitDir, SplitExt, IsDir;
    var t := SplitPath(path);
    PartsOf(path);
    GrowStem(t.stem, text, t.ext);
    assert t.dir + t.stem + text == t.dir + (t.stem + text);
    SplitPathIs(Parts(t.dir, t.stem + text, t.ext));
  }

  lemma GrowStem(stem: string, text: string, ext: string)
    requires IsExt(stem, ext) && (ext == "" ==> '.' !in text)
    ensures IsExt(stem + text, ext)
  {
    if ext == "" && stem != "" { assert (stem + text)[1..] == stem[1..] + text; }
  }

  // ----- lengths of numbers -----

  function Pow10(k: nat): (p: nat)
    ensures p >= 1
  {
    if k == 0 then 1 else 10 * Pow10(k - 1)
  }

  lemma {:induction false} DigitsFitIff(n: nat, k: nat)
    requires k >= 1
    ensures |Digits(n)| <= k <==> n < Pow10(k)
    decreases n
  {
    assert Pow10(1) == 10 * Pow10(0) == 10;
    if n >= 10 {
      assert |Digits(n % 10)| == 1;
      if k > 1 { DigitsFitIff(n / 10, k - 1); } else { assert n >= 10 * Pow10(0); PowGrows(k); }
    } else {
      PowGrows(k);
    }
  }

  lemma {:induction false} PowGrows(k: nat)
    requires k >= 1
    ensures Pow10(k) >= 10
  {
    if k > 1 { PowGrows(k - 1); }
  }

  lemma YearWidth(y: int)
    ensures |Decimal(y)| == 4 && y >= 0 <==> 1000 <= y <= 9999
  {
    if y >= 0 {
      DigitsFitIff(y, 3);
      DigitsFitIff(y, 4);
      assert Pow10(3) == 1000 && Pow10(4) == 10000;
    }
  }

  lemma PadIs(n: nat)
    requires n < 100
    ensures |Pad(n)| == 2 && AllDigits(Pad(n))
  {
    if n >= 10 { assert Digits(n) == Digits(n / 10) + Digits(n % 10); }
  }

  /** The clock part of a stamp: ten digits. */
  function Clock(t: When): string {
    Pad(t.month + 1) + Pad(t.day) + Pad(t.hour) + Pad(t.minute) + Pad(t.second)
  }

  lemma StampIs(t: When)
    requires IsDate(t)
    ensures Stamp(t) == Decimal(t.year) + Clock(t)
    ensures |Clock(t)| == 10 && AllDigits(Clock(t))
  {
    PadIs(t.month + 1);
    PadIs(t.day);
    PadIs(t.hour);
    PadIs(t.minute);
    PadIs(t.second);
    hide Pad, Decimal;
    TenDigits(Pad(t.month + 1), Pad(t.day), Pad(t.hour), Pad(t.minute), Pad(t.second));
    YearFirst(Decimal(t.year), Pad(t.month + 1), Pad(t.day), Pad(t.hour), Pad(t.minute), Pad(t.second));
  }

  lemma TenDigits(a: string, b: string, c: string, d: string, e: string)
    requires |a| == |b| == |c| == |d| == |e| == 2
    requires AllDigits(a) && AllDigits(b) && AllDigits(c) && AllDigits(d) && AllDigits(e)
    ensures |a + b + c + d + e| == 10 && AllDigits(a + b + c + d + e)
  {
    assert AllDigits(a + b);
    assert AllDigits(a + b + c);
    assert AllDigits(a + b + c + d);
  }

  lemma YearFirst(y: string, a: string, b: string, c: string, d: string, e: string)
    ensures y + a + b + c + d + e == y + (a + b + c + d + e)
  {
  }

  /** The stamp and the tag read as a stamp exactly for a year of four digits and a tag of
      letters and digits, if any. */
  lemma WordIsStampIff(t: When, tag: string)
    requires IsDate(t)
    ensures IsStamp(Stamp(t) + Suffix(tag)) <==> 1000 <= t.year <= 9999 && AllAlnum(tag)
    ensures ' ' !in Stamp(t)
  {
    StampIs(t);
    YearWidth(t.year);
    hide Stamp, Clock, Pow10, AllAlnum;
    var s, w := Stamp(t), Stamp(t) + Suffix(tag);
    if t.year < 0 {
      assert w[0] == '-';
      assert |w| >= 14 ==> w[..14][0] == w[0];
    } else {
      assert AllDigits(s);
      StampWordIff(s, tag);
    }
  }

  lemma StampWordIff(s: string, tag: string)
    requires AllDigits(s)
    ensures IsStamp(s + Suffix(tag)) <==> |s| == 14 && AllAlnum(tag)
  {
    if |s| == 14 { StampWord(s, tag); } else { NotStampWord(s, tag); }
  }

  lemma StampWord(s: string, tag: string)
    requires AllDigits(s) && |s| == 14
    ensures IsStamp(s + Suffix(tag)) <==> AllAlnum(tag)
  {
    var w := s + Suffix(tag);
    assert w[..14] == s;
    if tag == "" {
      assert AllAlnum(tag);
    } else {
      hide AllDigits, AllAlnum;
      assert w[15..] == tag && w[14] == '-';
    }
  }

  lemma NotStampWord(s: string, tag: string)
    requires AllDigits(s) && |s| != 14
    ensures !IsStamp(s + Suffix(tag))
  {
    hide AllAlnum;
    var w := s + Suffix(tag);
    if |s| > 14 {
      assert w[14] == s[14];
    } else if |w| >= 14 {
      assert w[..14][|s|] == '-';
    }
  }

  // ----- the round trip -----

  /** Where keys can be in a stem followed by " (conflict " and a device: at its end, or, behind
      it, where they are in the device with one space in front. */
  lemma KeysBehind(stem: string, device: string, k: int)
    requires k >= |stem|
    ensures var z := stem + " (conflict " + device;
      KeyAt(z, k) <==> k == |stem| || KeyAt(" " + device, k - |stem| - (KEY - 1))
  {
    var n, z := |stem|, stem + " (conflict " + device;
    assert z[n..] == " (conflict " + device;
    assert z[n] == ' ' && z[n + 1] == '(' && z[n + 2] == 'c' && z[n + 3] == 'o' && z[n + 4] == 'n' && z[n + 5] == 'f'
      && z[n + 6] == 'l' && z[n + 7] == 'i' && z[n + 8] == 'c' && z[n + 9] == 't' && z[n + 10] == ' ';
    if k >= n + 10 { assert z[n + 10..] == " " + device; SameBehind(z, " " + device, n + 10, k); }
  }

  lemma SameBehind(z: string, y: string, n: int, k: int)
    requires 0 <= n <= k && n <= |z| && z[n..] == y
    ensures KeyAt(z, k) <==> KeyAt(y, k - n)
  {
    assert |y| == |z| - n;
    if k + KEY <= |z| {
      assert forall i :: n <= i < |z| ==> z[i] == y[i - n];
    }
  }

  /** No key with text behind it. */
  predicate NoKeyIn(s: string) { forall k :: 0 <= k < |s| - KEY ==> !KeyAt(s, k) }

  /** The greedy group is the stem exactly when the name behind it can be read in one way. */
  lemma GroupIsStemIff(stem: string, device: string, w: string)
    requires ' ' !in w
    ensures var s := stem + " (conflict " + device + " " + w + ")";
      LongestMatch(s, |s|) == Some(|stem|)
      <==> device != "" && OneLine(stem) && OneLine(device) && IsStamp(w) && NoKeyIn(" " + device)
  {
    var z := stem + " (conflict " + device;
    var s := z + " " + w + ")";
    hide KeyAt, IsStamp, MatchesAt;
    MatchIff(z, w, |stem|);
    KeysBehind(stem, device, |stem|);
    OneLineAround(z, |stem|);
    assert z[..|stem|] == stem && z[|stem| + KEY..] == device;
    if MatchesAt(s, |stem|) {
      if NoKeyIn(" " + device) {
        forall k | |stem| < k <= |s| ensures !MatchesAt(s, k) { LaterMatchIff(stem, device, w, k); }
      } else {
        var j :| 0 <= j < |" " + device| - KEY && KeyAt(" " + device, j);
        LaterMatchIff(stem, device, w, |stem| + KEY - 1 + j);
      }
    }
  }

  lemma LaterMatchIff(stem: string, device: string, w: string, k: int)
    requires ' ' !in w && k > |stem|
    requires MatchesAt(stem + " (conflict " + device + " " + w + ")", |stem|)
    ensures var j := k - |stem| - (KEY - 1);
      MatchesAt(stem + " (conflict " + device + " " + w + ")", k)
      <==> 0 <= j < |" " + device| - KEY && KeyAt(" " + device, j)
  {
    var z := stem + " (conflict " + device;
    hide IsStamp, MatchesAt;
    MatchIff(z, w, |stem|);
    MatchIff(z, w, k);
    KeysBehind(stem, device, k);
  }

  lemma DirReaches(q: string, i: int)
    requires 0 <= i < |q| && q[i] == '/'
    ensures |SplitPath(q).dir| > i && SplitPath(q).dir <= q
  {
    LastIndexAtLeast(q, '/', i);
  }

  lemma AnswerHasDir(q: string)
    ensures var r := OriginalOfConflictCopy(q); r.Some? ==> SplitPath(q).dir <= r.value
  {
    hide SplitPath, MatchesAt;
  }

  /** A slash in the inserted text moves the directory's end behind the stem: the answer, if any,
      has the marker's first space where the path has its extension or its end. */
  lemma SlashLosesThePath(path: string, text: string)
    requires '/' in text && text[0] == ' '
    ensures OriginalOfConflictCopy(Inserted(path, text)) != Some(path)
  {
    var n, q := BeforeText(path), Inserted(path, text);
    var i :| 0 <= i < |text| && text[i] == '/';
    InsertedAt(path, text, i);
    InsertedAt(path, text, 0);
    PathBehindStem(path);
    DirReaches(q, n + i);
    AnswerHasDir(q);
    hide SplitPath, OriginalOfConflictCopy, Inserted, BeforeText;
    assert SplitPath(q).dir[n] == ' ';
  }

  /** The position of the inserted text. */
  function BeforeText(path: string): (n: int) { |SplitPath(path).dir| + |SplitPath(path).stem| }

  lemma InsertedAt(path: string, text: string, i: int)
    requires 0 <= i < |text|
    ensures BeforeText(path) + i < |Inserted(path, text)|
    ensures Inserted(path, text)[BeforeText(path) + i] == text[i]
  {
    hide SplitPath;
  }

  lemma PathBehindStem(path: string)
    ensures BeforeText(path) < |path| ==> path[BeforeText(path)] == '.'
  {
    PartsOf(path);
    hide SplitPath, IsDir;
  }

  lemma DottedAnswer(dir: string, name: string, dot: int)
    requires IsDir(dir) && '/' !in name && dot == LastIndexOf(name, '.') && dot > 0
    ensures var r := OriginalOfConflictCopy(dir + name);
      r.Some? ==> exists k :: 0 <= k <= dot && MatchesAt(name[..dot], k) && r.value == dir + name[..dot][..k] + name[dot..]
  {
    hide LongestMatch, MatchesAt, IsDir;
    SplitDirIs(dir, name);
    hide SplitDir;
    assert SplitPath(dir + name) == Parts(dir, name[..dot], name[dot..]);
    MatchFound(name[..dot]);
  }

  lemma MatchFound(s: string)
    ensures var r := LongestMatch(s, |s|); r.Some? ==> 0 <= r.value <= |s| && MatchesAt(s, r.value)
  {
    hide MatchesAt;
  }

  /** A dot in the inserted text of a name without extension makes one. */
  lemma DotLosesThePath(path: string, text: string)
    requires '/' !in text && '.' in text && text[0] == ' '
    requires SplitPath(path).ext == ""
    ensures OriginalOfConflictCopy(Inserted(path, text)) != Some(path)
  {
    var t, q := SplitPath(path), Inserted(path, text);
    PartsOf(path);
    hide SplitPath, OriginalOfConflictCopy, IsDir, MatchesAt, IsExt, LongestMatch;
    var name := t.stem + text;
    var i :| 0 <= i < |text| && text[i] == '.';
    assert name[|t.stem| + i] == '.';
    LastIndexAtLeast(name, '.', |t.stem| + i);
    assert name[|t.stem|] == ' ';
    var dot := LastIndexOf(name, '.');
    assert q == t.dir + name;
    DottedAnswer(t.dir, name, dot);
    forall k | 0 <= k <= dot && MatchesAt(name[..dot], k)
      ensures t.dir + name[..dot][..k] + name[dot..] != path
    {
      DottedMatchIsNotStem(t.stem, text, dot, k);
      SameDirSameRest(t.dir, name[..dot][..k], name[dot..], t.stem);
      assert path == t.dir + t.stem + "" == t.dir + t.stem;
    }
  }

  lemma SameDirSameRest(dir: string, a: string, b: string, stem: string)
    requires a + b != stem
    ensures dir + a + b != dir + stem
  {
    assert dir + a + b == dir + (a + b);
    assert (dir + (a + b))[|dir|..] == a + b && (dir + stem)[|dir|..] == stem;
  }

  lemma DottedMatchIsNotStem(stem: string, text: string, dot: int, k: int)
    requires IsExt(stem, "") && |stem| < dot < |stem + text| && (stem + text)[dot] == '.'
    requires 0 <= k && MatchesAt((stem + text)[..dot], k)
    ensures (stem + text)[..dot][..k] + (stem + text)[dot..] != stem
  {
    var name := stem + text;
    var r := name[..dot][..k] + name[dot..];
    assert r[k] == '.';
    assert name[..dot][k] == name[k] == ' ';
    assert k < |stem| ==> name[k] == stem[k];
  }

  /** The inserted text reaches the parser as part of the stem: the answer is the path exactly
      when the greedy group is the path's own stem. */
  lemma InsertedIsOriginalIff(path: string, text: string)
    requires '/' !in text
    requires SplitPath(path).ext == "" ==> '.' !in text
    ensures var stem := SplitPath(path).stem + text;
      OriginalOfConflictCopy(Inserted(path, text)) == Some(path)
      <==> LongestMatch(stem, |stem|) == Some(|SplitPath(path).stem|)
  {
    PartsOfInserted(path, text);
    PartsOf(path);
    hide SplitPath, MatchesAt, LongestMatch, AreParts, Inserted;
    var t := SplitPath(path);
    var stem := t.stem + text;
    MatchFound(stem);
    assert stem[..|t.stem|] == t.stem;
    var r := LongestMatch(stem, |stem|);
    if r.Some? { assert |t.dir + stem[..r.value] + t.ext| == |t.dir| + r.value + |t.ext|; }
  }

  /** What path and device must be like for the name to be read back. */
  predicate Recoverable(path: string, device: string) {
    && device != "" && '/' !in device && OneLine(device) && NoKeyIn(" " + device)
    && OneLine(SplitPath(path).stem)
    && (SplitPath(path).ext == "" ==> '.' !in device)
  }

  lemma CharsOfMarker(device: string, w: string, c: char)
    requires c == '/' || c == '.'
    ensures c in Marker(device, w) <==> c in device || c in w
  {
    assert Marker(device, w) == " (conflict " + (device + (" " + w + ")"));
    assert c !in " (conflict ";
  }

  lemma AppendMarker(stem: string, device: string, w: string)
    ensures stem + Marker(device, w) == stem + " (conflict " + device + " " + w + ")"
  {
  }

  lemma StampIsPlain(w: string)
    requires IsStamp(w)
    ensures '/' !in w && '.' !in w
  {
    forall i | 0 <= i < |w| ensures w[i] != '/' && w[i] != '.' {
      if i < 14 { assert w[..14][i] == w[i]; }
      if i > 14 { assert w[15..][i - 15] == w[i]; }
    }
  }

  lemma MisplacedLosesThePath(path: string, device: string, w: string)
    requires '/' in device || '/' in w || (SplitPath(path).ext == "" && ('.' in device || '.' in w))
    ensures OriginalOfConflictCopy(Inserted(path, Marker(device, w))) != Some(path)
  {
    hide OriginalOfConflictCopy, SplitPath, Inserted;
    CharsOfMarker(device, w, '/');
    CharsOfMarker(device, w, '.');
    if '/' in Marker(device, w) { SlashLosesThePath(path, Marker(device, w)); } else { DotLosesThePath(path, Marker(device, w)); }
  }

  lemma PlacedIsOriginalIff(path: string, device: string, w: string)
    requires '/' !in w && ' ' !in w && '/' !in device
    requires SplitPath(path).ext == "" ==> '.' !in device && '.' !in w
    ensures OriginalOfConflictCopy(Inserted(path, Marker(device, w))) == Some(path)
       <==> Recoverable(path, device) && IsStamp(w)
  {
    hide OriginalOfConflictCopy, SplitPath, Inserted, LongestMatch, NoKeyIn, IsStamp, OneLine;
    var stem, text := SplitPath(path).stem, Marker(device, w);
    CharsOfMarker(device, w, '/');
    CharsOfMarker(device, w, '.');
    AppendMarker(stem, device, w);
    hide Marker;
    InsertedIsOriginalIff(path, text);
    GroupIsStemIff(stem, device, w);
  }

  /** With any device and any word without a space behind it. */
  lemma ReadBackIff(path: string, device: string, w: string)
    requires ' ' !in w
    ensures OriginalOfConflictCopy(Inserted(path, Marker(device, w))) == Some(path)
       <==> Recoverable(path, device) && IsStamp(w)
  {
    if IsStamp(w) { StampIsPlain(w); }
    hide IsStamp, OriginalOfConflictCopy, SplitPath, Inserted, Marker, OneLine, NoKeyIn;
    if '/' in device || '/' in w || (SplitPath(path).ext == "" && ('.' in device || '.' in w)) {
      MisplacedLosesThePath(path, device, w);
    } else {
      PlacedIsOriginalIff(path, device, w);
    }
  }

  /** For every path, device, date and tag: the parser gives back the path a conflict copy was
      named for if and only if path and device are recoverable, the year has four digits and the
      tag is of letters and digits; whether the path is itself a conflict copy plays no part.
      A tag with a space is read as if all before its last space belonged to the device. */
  lemma RoundTripIff(path: string, device: string, t: When, tag: string)
    requires IsDate(t)
    ensures var i := LastIndexOf(tag, ' ');
      OriginalOfConflictCopy(ConflictCopyName(path, device, t, tag)) == Some(path)
      <==> if i < 0 then Recoverable(path, device) && 1000 <= t.year <= 9999 && AllAlnum(tag)
           else Recoverable(path, device + " " + (Stamp(t) + "-" + tag[..i])) && IsStamp(tag[i + 1..])
  {
    hide IsStamp, IsDate, OriginalOfConflictCopy, ConflictCopyName, Stamp, Recoverable, AllAlnum;
    var i := LastIndexOf(tag, ' ');
    if i < 0 { PlainTagIff(path, device, t, tag); } else { SpacedTagIff(path, device, t, tag, i); }
  }

  lemma PlainTagIff(path: string, device: string, t: When, tag: string)
    requires IsDate(t) && LastIndexOf(tag, ' ') < 0
    ensures OriginalOfConflictCopy(ConflictCopyName(path, device, t, tag)) == Some(path)
       <==> Recoverable(path, device) && 1000 <= t.year <= 9999 && AllAlnum(tag)
  {
    var w := Stamp(t) + Suffix(tag);
    hide IsStamp, IsDate, OriginalOfConflictCopy, SplitPath, Inserted, Stamp, Recoverable, AllAlnum, Marker;
    WordIsStampIff(t, tag);
    assert ' ' !in tag;
    ReadBackIff(path, device, w);
  }

  lemma SpacedTagIff(path: string, device: string, t: When, tag: string, i: int)
    requires IsDate(t) && i == LastIndexOf(tag, ' ') >= 0
    ensures OriginalOfConflictCopy(ConflictCopyName(path, device, t, tag)) == Some(path)
       <==> Recoverable(path, device + " " + (Stamp(t) + "-" + tag[..i])) && IsStamp(tag[i + 1..])
  {
    NoneBehind(tag, ' ');
    hide IsStamp, IsDate, OriginalOfConflictCopy, SplitPath, Inserted, Stamp, Recoverable, Marker, Suffix;
    SpacedMarker(device, Stamp(t), tag, i);
    ReadBackIff(path, device + " " + (Stamp(t) + "-" + tag[..i]), tag[i + 1..]);
  }

  lemma SpacedMarker(device: string, stamp: string, tag: string, i: int)
    requires 0 <= i < |tag| && tag[i] == ' '
    ensures Marker(device, stamp + Suffix(tag)) == Marker(device + " " + (stamp + "-" + tag[..i]), tag[i + 1..])
  {
    var u, v := tag[..i], tag[i + 1..];
    assert tag == u + " " + v;
    Regroup(stamp, u, v);
    assert stamp + Suffix(tag) == stamp + "-" + u + " " + v;
    MarkerOfTwoWords(device, stamp + "-" + u, v);
  }

  lemma Regroup(stamp: string, u: string, v: string)
    ensures stamp + ("-" + (u + " " + v)) == stamp + "-" + u + " " + v
  {
  }

  lemma MarkerOfTwoWords(device: string, x: string, v: string)
    ensures Marker(device, x + " " + v) == Marker(device + " " + x, v)
  {
    var head := " (conflict " + device + " ";
    assert head + (x + " " + v) == head + x + " " + v;
    assert head + x == " (conflict " + (device + " " + x);
  }

  // ----- kept-both notes -----

  lemma InsertedIsCopyIff(path: string, text: string)
    requires '/' !in text && '.' !in text
    ensures OriginalOfConflictCopy(Inserted(path, text)).Some?
       <==> exists k :: 0 <= k && MatchesAt(SplitPath(path).stem + text, k)
  {
    PartsOfInserted(path, text);
    hide SplitPath, MatchesAt, Inserted;
    MatchesInside(SplitPath(path).stem + text);
  }

  lemma MatchesInside(s: string)
    ensures LongestMatch(s, |s|).Some? <==> exists k :: 0 <= k && MatchesAt(s, k)
  {
    forall k | 0 <= k && MatchesAt(s, k) ensures k <= |s| { }
  }

  /** A day has two dashes too close together for a stamp. */
  lemma DayIs(t: When)
    requires IsDate(t)
    ensures !IsStamp(Day(t))
    ensures forall c :: c in Day(t) ==> IsDigit(c) || c == '-'
  {
    var y, w := Decimal(t.year), Day(t);
    PadIs(t.month + 1);
    PadIs(t.day);
    hide Pad;
    var m, d := Pad(t.month + 1), Pad(t.day);
    assert w == y + "-" + (m + "-" + d);
    hide Day;
    assert w[|y|] == '-' && w[|y| + 3] == '-';
    TwoDashes(w, |y|);
  }

  lemma TwoDashes(w: string, i: int)
    requires 0 <= i && i + 3 < |w| && w[i] == '-' && w[i + 3] == '-'
    ensures !IsStamp(w)
  {
    if |w| >= 14 {
      if i < 14 { assert w[..14][i] == '-'; }
      if i + 3 > 14 { assert w[15..][i + 3 - 15] == '-'; }
    }
  }

  /** Text that opens with a parenthesis and another word adds no key; it may close one with its
      leading space. */
  lemma KeysBefore(stem: string, rest: string, k: int)
    requires rest != "" && rest[0] == 't' && '(' !in rest
    ensures KeyAt(stem + " (" + rest, k) <==> KeyAt(stem + " ", k)
  {
    var z, y, n := stem + " (" + rest, stem + " ", |stem|;
    assert z[n] == ' ' && z[n + 1] == '(' && z[n + 2] == 't';
    assert forall i :: 0 <= i <= n ==> z[i] == y[i];
    assert forall i :: n + 1 < i < |z| ==> z[i] == rest[i - n - 2];
    if KeyAt(z, k) {
      assert k + 1 != n + 1;
      assert k + 1 <= n + 1;
    }
  }

  lemma WordAfterDayIff(stem: string, day: string, w: string, k: int)
    requires ' ' !in w && forall c :: c in day ==> IsDigit(c) || c == '-'
    ensures MatchesAt(stem + LabelHead() + day + " " + w + ")", k)
       <==> KeyAt(stem + " ", k) && OneLine(stem) && IsStamp(w)
  {
    LabelAddsNoKey(stem, day, k);
    LabelIsOneLine(stem, day);
    hide KeyAt, IsStamp, MatchesAt, OneLine, LabelHead;
    MatchIff(stem + LabelHead() + day, w, k);
  }

  lemma LabelAddsNoKey(stem: string, day: string, k: int)
    requires '(' !in day
    ensures var z := stem + LabelHead() + day;
      KeyAt(z, k) && k + KEY < |z| <==> KeyAt(stem + " ", k)
  {
    var rest := "this device's version " + day;
    assert stem + LabelHead() + day == stem + " (" + rest;
    assert '(' !in "this device's version ";
    hide KeyAt;
    KeysBefore(stem, rest, k);
    KeyFits(stem + " ", k);
  }

  lemma LabelIsOneLine(stem: string, day: string)
    requires forall c :: c in day ==> IsDigit(c) || c == '-'
    ensures OneLine(stem + LabelHead() + day) <==> OneLine(stem)
  {
    HeadIsPlain();
    forall i | 0 <= i < |day| ensures !IsLineEnd(day[i]) {
      assert day[i] in day;
    }
    assert OneLine(day);
    hide OneLine, LabelHead;
    OneLineAppend(stem + LabelHead(), day);
    OneLineAppend(stem, LabelHead());
  }

  lemma KeyFits(s: string, k: int)
    ensures KeyAt(s, k) ==> 0 <= k && k + KEY <= |s|
  {
  }

  lemma OneLineAppend(a: string, b: string)
    ensures OneLine(a + b) <==> OneLine(a) && OneLine(b)
  {
    if OneLine(a + b) {
      assert forall i :: 0 <= i < |a| ==> a[i] == (a + b)[i];
      assert forall i :: 0 <= i < |b| ==> b[i] == (a + b)[|a| + i];
    }
  }

  lemma CharsOfLabel(t: When, n: nat)
    requires IsDate(t)
    ensures '/' !in Label(t, n) && '.' !in Label(t, n)
  {
    DayIs(t);
    HeadIsPlain();
    hide Day, IsStamp, IsDate, Counter, LabelHead, OneLine;
    InNeither(LabelHead(), Day(t));
    InNeither(LabelHead() + Day(t), Counter(n));
    InNeither(LabelHead() + Day(t) + Counter(n), ")");
  }

  lemma HeadIsPlain()
    ensures '/' !in LabelHead() && '.' !in LabelHead()
    ensures OneLine(LabelHead())
  {
    var head := LabelHead();
    forall i | 0 <= i < |head| ensures !IsLineEnd(head[i]) {
      assert head[i] in head;
    }
  }

  lemma InNeither(a: string, b: string)
    requires '/' !in a && '.' !in a && '/' !in b && '.' !in b
    ensures '/' !in a + b && '.' !in a + b
  {
  }

  /** A kept-both name is read as a conflict copy if and only if the note's own stem, on one line,
      has a key in it (or one closed by the label's leading space) and the counter has grown to
      fourteen digits. */
  lemma KeptBothIsCopyIff(original: string, t: When, n: nat)
    requires IsDate(t)
    ensures OriginalOfConflictCopy(KeptBothName(original, t, n)).Some?
       <==> n != 0 && |Digits(n + 1)| == 14 && OneLine(SplitPath(original).stem)
            && exists k :: KeyAt(SplitPath(original).stem + " ", k)
  {
    CharsOfLabel(t, n);
    InsertedIsCopyIff(original, Label(t, n));
    hide OriginalOfConflictCopy, SplitPath, Inserted;
    LabelMatchesIff(SplitPath(original).stem, t, n);
  }

  /** In particular no counter below ten million million makes one. */
  lemma KeptBothIsNoCopy(original: string, t: When, n: nat)
    requires IsDate(t) && n + 1 < 10000000000000
    ensures OriginalOfConflictCopy(KeptBothName(original, t, n)) == None
  {
    hide OriginalOfConflictCopy, SplitPath, KeptBothName, KeyAt;
    KeptBothIsCopyIff(original, t, n);
    hide Digits;
    DigitsFitIff(n + 1, 13);
    Pow10Of13();
  }

  /** An input at which it does: the smallest such counter. The one caller stops at 100. */
  lemma KeptBothCanBeCopy(t: When)
    requires IsDate(t)
    ensures OriginalOfConflictCopy(KeptBothName("a (conflict b", t, 9999999999999)).Some?
  {
    hide OriginalOfConflictCopy, SplitPath, KeptBothName, KeyAt, Digits, OneLine, IsDate;
    FourteenDigits();
    NameWithKey("a (conflict b");
    StemOfPlainName("a (conflict b");
    KeptBothIsCopyIff("a (conflict b", t, 9999999999999);
  }

  lemma FourteenDigits()
    ensures |Digits(9999999999999 + 1)| == 14
  {
    hide Digits;
    DigitsFitIff(10000000000000, 13);
    DigitsFitIff(10000000000000, 14);
    Pow10Of13();
  }

  lemma NameWithKey(name: string)
    requires name == "a (conflict b"
    ensures KeyAt(name + " ", 1) && OneLine(name) && '/' !in name && '.' !in name
  {
    forall i | 0 <= i < |name| ensures !IsLineEnd(name[i]) { assert name[i] in name; }
  }

  lemma StemOfPlainName(name: string)
    requires '/' !in name && '.' !in name
    ensures SplitPath(name).stem == name
  {
    assert Whole(Parts("", name, "")) == name;
    SplitPathIs(Parts("", name, ""));
  }

  lemma Pow10Of13()
    ensures Pow10(13) == 10000000000000
  {
    assert Pow10(5) == 100000;
    assert Pow10(9) == 1000000000;
  }

  lemma LabelMatchesIff(stem: string, t: When, n: nat)
    requires IsDate(t)
    ensures (exists k :: 0 <= k && MatchesAt(stem + Label(t, n), k))
       <==> n != 0 && |Digits(n + 1)| == 14 && OneLine(stem) && exists k :: KeyAt(stem + " ", k)
  {
    hide MatchesAt, KeyAt, OneLine, Label, IsDate, Digits;
    forall k
      ensures MatchesAt(stem + Label(t, n), k)
         <==> n != 0 && |Digits(n + 1)| == 14 && OneLine(stem) && KeyAt(stem + " ", k)
    {
      if n == 0 { PlainLabel(stem, t, k); } else { CountedLabel(stem, t, n, k); }
    }
    forall k | KeyAt(stem + " ", k) ensures 0 <= k { KeyFits(stem + " ", k); }
  }

  lemma PlainLabel(stem: string, t: When, k: int)
    requires IsDate(t)
    ensures !MatchesAt(stem + Label(t, 0), k)
  {
    DayIs(t);
    hide MatchesAt, KeyAt, OneLine, IsDate, IsStamp, Day, Label;
    PlainLabelIs(stem, t);
    MatchIff(stem + " (this device's version", Day(t), k);
  }

  lemma PlainLabelIs(stem: string, t: When)
    ensures stem + Label(t, 0) == stem + " (this device's version" + " " + Day(t) + ")"
  {
    hide Day;
    assert LabelHead() == " (this device's version" + " ";
    hide LabelHead;
    assert Label(t, 0) == LabelHead() + Day(t) + ")";
    var head := " (this device's version";
    assert stem + (head + " " + Day(t) + ")") == stem + head + " " + Day(t) + ")";
  }

  lemma CountedLabel(stem: string, t: When, n: nat, k: int)
    requires IsDate(t) && n != 0
    ensures MatchesAt(stem + Label(t, n), k) <==> |Digits(n + 1)| == 14 && OneLine(stem) && KeyAt(stem + " ", k)
  {
    DayIs(t);
    var w := Digits(n + 1);
    StampWordIff(w, "");
    assert w + Suffix("") == w;
    hide MatchesAt, KeyAt, OneLine, IsDate, IsStamp, Day, Digits, LabelHead;
    CountedLabelIs(stem, t, n);
    hide Label;
    WordAfterDayIff(stem, Day(t), w, k);
  }

  lemma CountedLabelIs(stem: string, t: When, n: nat)
    requires n != 0
    ensures stem + Label(t, n) == stem + LabelHead() + Day(t) + " " + Digits(n + 1) + ")"
  {
    hide Day, Digits, LabelHead;
  }

  // ----- two conflicts, two names -----

  lemma Between(a: string, x: string, y: string, b: string)
    requires a + x + b == a + y + b
    ensures x == y
  {
    assert |x| == |y|;
    assert (a + x + b)[|a|..|a| + |x|] == x && (a + y + b)[|a|..|a| + |y|] == y;
  }

  lemma {:induction false} DigitsInjective(m: nat, n: nat)
    requires Digits(m) == Digits(n)
    ensures m == n
    decreases m
  {
    if m < 10 && n < 10 {
    } else {
      LastDigit(m);
      LastDigit(n);
      if m >= 10 && n >= 10 {
        DigitsInjective(m / 10, n / 10);
        DigitsInjective(m % 10, n % 10);
      }
    }
  }

  /** A longer number ends in its last digit. */
  lemma LastDigit(n: nat)
    ensures n >= 10 ==> |Digits(n)| >= 2 && Digits(n)[|Digits(n)| - 1..] == Digits(n % 10)
    ensures n >= 10 ==> Digits(n)[..|Digits(n)| - 1] == Digits(n / 10)
  {
  }

  lemma PadInjective(m: nat, n: nat)
    requires m < 100 && n < 100 && Pad(m) == Pad(n)
    ensures m == n
  {
    PadIs(m);
    PadIs(n);
    if m < 10 {
      assert Pad(m)[1..] == Digits(m);
      assert Digits(0) == "0";
      if n >= 10 {
        assert Digits(n) == Digits(n / 10) + Digits(n % 10);
        assert Digits(n)[..1] == Digits(n / 10) && Digits(n)[..1] == Digits(0);
        DigitsInjective(n / 10, 0);
      } else {
        assert Pad(n)[1..] == Digits(n);
        DigitsInjective(m, n);
      }
    } else if n < 10 {
      PadInjective(n, m);
    } else {
      DigitsInjective(m, n);
    }
  }

  lemma SamePrefix(a: string, x: string, b: string, y: string)
    requires |a| == |b| && a + x == b + y
    ensures a == b && x == y
  {
    assert (a + x)[..|a|] == a && (b + y)[..|b|] == b;
    assert (a + x)[|a|..] == x && (b + y)[|b|..] == y;
  }

  lemma ClockInjective(t: When, u: When)
    requires IsDate(t) && IsDate(u) && Clock(t) == Clock(u)
    ensures t.(year := u.year) == u
  {
    PadIs(t.month + 1); PadIs(t.day); PadIs(t.hour); PadIs(t.minute); PadIs(t.second);
    PadIs(u.month + 1); PadIs(u.day); PadIs(u.hour); PadIs(u.minute); PadIs(u.second);
    ClockParts(Pad(t.month + 1), Pad(t.day), Pad(t.hour), Pad(t.minute), Pad(t.second),
               Pad(u.month + 1), Pad(u.day), Pad(u.hour), Pad(u.minute), Pad(u.second));
    hide Pad;
    PadInjective(t.month + 1, u.month + 1);
    PadInjective(t.day, u.day);
    PadInjective(t.hour, u.hour);
    PadInjective(t.minute, u.minute);
    PadInjective(t.second, u.second);
  }

  lemma ClockParts(a: string, b: string, c: string, d: string, e: string,
                   a': string, b': string, c': string, d': string, e': string)
    requires |a| == |a'| && |b| == |b'| && |c| == |c'| && |d| == |d'|
    requires a + b + c + d + e == a' + b' + c' + d' + e'
    ensures a == a' && b == b' && c == c' && d == d' && e == e'
  {
    SamePrefix(a + b + c + d, e, a' + b' + c' + d', e');
    SamePrefix(a + b + c, d, a' + b' + c', d');
    SamePrefix(a + b, c, a' + b', c');
    SamePrefix(a, b, a', b');
  }

  /** The digits of a word end where its tag begins. */
  lemma WordParts(s: string, tag: string, s': string, tag': string)
    requires AllDigits(s) && AllDigits(s') && s + Suffix(tag) == s' + Suffix(tag')
    ensures s == s' && tag == tag'
  {
    if |s| < |s'| {
      DigitsEndAtTag(s, tag, s', tag');
    } else if |s'| < |s| {
      DigitsEndAtTag(s', tag', s, tag);
    } else {
      SamePrefix(s, Suffix(tag), s', Suffix(tag'));
      assert tag != "" ==> Suffix(tag)[1..] == tag;
      assert tag' != "" ==> Suffix(tag')[1..] == tag';
    }
  }

  lemma DigitsEndAtTag(s: string, tag: string, s': string, tag': string)
    requires AllDigits(s') && |s| < |s'|
    ensures s + Suffix(tag) != s' + Suffix(tag')
  {
    assert IsDigit((s' + Suffix(tag'))[|s|]);
    assert tag != "" ==> (s + Suffix(tag))[|s|] == '-';
    assert tag == "" ==> |s + Suffix(tag)| == |s|;
  }

  /** A stamp without its sign. */
  function Unsigned(t: When): string { Digits(if t.year < 0 then -t.year else t.year) + Clock(t) }

  lemma UnsignedIs(t: When)
    requires IsDate(t)
    ensures AllDigits(Unsigned(t)) && Unsigned(t) != ""
  {
    StampIs(t);
    hide Clock, Stamp, IsDate;
  }

  lemma StampSign(t: When, tag: string)
    requires IsDate(t)
    ensures Stamp(t) + Suffix(tag) == Signed(t.year < 0, Unsigned(t) + Suffix(tag))
  {
    StampIs(t);
    hide Clock, Stamp, Suffix, IsDate, AllDigits;
    SignOfYear(t.year);
    hide Digits, Decimal;
    SignFirst(t.year < 0, Digits(if t.year < 0 then -t.year else t.year), Clock(t), Suffix(tag));
  }

  function Signed(negative: bool, s: string): string { if negative then "-" + s else s }

  lemma SignOfYear(y: int)
    ensures Decimal(y) == Signed(y < 0, Digits(if y < 0 then -y else y))
  {
    hide Digits;
  }

  lemma SignFirst(negative: bool, digits: string, clock: string, suffix: string)
    ensures Signed(negative, digits) + clock + suffix == Signed(negative, digits + clock + suffix)
  {
    assert "-" + digits + clock == "-" + (digits + clock);
    assert "-" + (digits + clock) + suffix == "-" + (digits + clock + suffix);
  }

  lemma NumberBefore(y: nat, c: string, z: nat, d: string)
    requires |c| == |d| && Digits(y) + c == Digits(z) + d
    ensures y == z && c == d
  {
    hide Digits;
    assert |Digits(y)| == |Digits(z)|;
    SamePrefix(Digits(y), c, Digits(z), d);
    DigitsInjective(y, z);
  }

  lemma UnsignedInjective(t: When, u: When)
    requires IsDate(t) && IsDate(u) && Unsigned(t) == Unsigned(u)
    requires t.year < 0 <==> u.year < 0
    ensures t == u
  {
    StampIs(t);
    StampIs(u);
    hide Clock, Stamp, Digits, AllDigits, IsDate;
    NumberBefore(if t.year < 0 then -t.year else t.year, Clock(t), if u.year < 0 then -u.year else u.year, Clock(u));
    ClockInjective(t, u);
  }

  lemma WordInjective(t: When, tag: string, u: When, tag': string)
    requires IsDate(t) && IsDate(u)
    requires Stamp(t) + Suffix(tag) == Stamp(u) + Suffix(tag')
    ensures t == u && tag == tag'
  {
    StampSign(t, tag);
    StampSign(u, tag');
    UnsignedIs(t);
    UnsignedIs(u);
    hide Stamp, Suffix, Unsigned, IsDate;
    SameSign(t.year < 0, Unsigned(t) + Suffix(tag), u.year < 0, Unsigned(u) + Suffix(tag'));
    WordParts(Unsigned(t), tag, Unsigned(u), tag');
    UnsignedInjective(t, u);
  }

  lemma SameSign(a: bool, v: string, b: bool, w: string)
    requires v != "" && w != "" && IsDigit(v[0]) && IsDigit(w[0])
    requires Signed(a, v) == Signed(b, w)
    ensures a == b && v == w
  {
    assert ("-" + v)[1..] == v && ("-" + w)[1..] == w;
    assert ("-" + v)[0] == '-' && ("-" + w)[0] == '-';
  }

  /** Two conflicts on one path and device never share a name unless second and tag agree. */
  lemma CopyNamesDiffer(path: string, device: string, t: When, tag: string, u: When, tag': string)
    requires IsDate(t) && IsDate(u)
    requires ConflictCopyName(path, device, t, tag) == ConflictCopyName(path, device, u, tag')
    ensures t == u && tag == tag'
  {
    var v, w := Stamp(t) + Suffix(tag), Stamp(u) + Suffix(tag');
    hide Stamp, Suffix, SplitPath, IsDate;
    var p := SplitPath(path);
    Between(p.dir + p.stem, Marker(device, v), Marker(device, w), p.ext);
    Between(" (conflict " + device + " ", v, w, ")");
    WordInjective(t, tag, u, tag');
  }

  // ----- the numbers in a name, and the characters of the expression -----

  /** The number a run of digits is read as. */
  function Value(s: string): int {
    if s == "" then 0 else 10 * Value(s[..|s| - 1]) + (s[|s| - 1] as int - '0' as int)
  }

  lemma {:induction false} DigitsReadBack(n: nat)
    ensures Value(Digits(n)) == n
    decreases n
  {
    if n >= 10 {
      LastDigit(n);
      DigitsReadBack(n / 10);
      OneDigit(n % 10);
      var s := Digits(n);
      assert s[|s| - 1] == s[|s| - 1..][0];
    } else {
      OneDigit(n);
      assert Digits(n)[..0] == "";
    }
  }

  lemma OneDigit(n: nat)
    requires n < 10
    ensures |Digits(n)| == 1 && Digits(n)[0] as int == '0' as int + n
  {
  }

  lemma PadReadsBack(n: nat)
    requires n < 100
    ensures Value(Pad(n)) == n
  {
    DigitsReadBack(n);
    if n < 10 {
      OneDigit(n);
      assert Pad(n)[..1] == "0" && "0"[..0] == "";
      assert Value("0") == 0;
    }
  }

  lemma StampFields(t: When)
    requires IsDate(t) && t.year >= 0
    ensures var s := Stamp(t);
            var n := |s|;
            && n == |Digits(t.year)| + 10 && s[..n - 10] == Digits(t.year)
            && s[n - 10..n - 8] == Pad(t.month + 1) && s[n - 8..n - 6] == Pad(t.day)
            && s[n - 6..n - 4] == Pad(t.hour) && s[n - 4..n - 2] == Pad(t.minute) && s[n - 2..] == Pad(t.second)
  {
    PadIs(t.month + 1);
    PadIs(t.day);
    PadIs(t.hour);
    PadIs(t.minute);
    PadIs(t.second);
    hide Pad, Digits, AllDigits;
    SixFields(Digits(t.year), Pad(t.month + 1), Pad(t.day), Pad(t.hour), Pad(t.minute), Pad(t.second));
  }

  /** A stamp's characters read back as the date: the year, then two digits each for month (from
      one), day, hour, minute and second. */
  lemma StampReadsBack(t: When)
    requires IsDate(t) && t.year >= 0
    ensures var s := Stamp(t);
            var n := |s|;
            && n >= 10 && Value(s[..n - 10]) == t.year
            && Value(s[n - 10..n - 8]) == t.month + 1 && Value(s[n - 8..n - 6]) == t.day
            && Value(s[n - 6..n - 4]) == t.hour && Value(s[n - 4..n - 2]) == t.minute && Value(s[n - 2..]) == t.second
  {
    StampFields(t);
    hide Stamp, Pad, Digits, Value;
    PadReadsBack(t.month + 1);
    PadReadsBack(t.day);
    PadReadsBack(t.hour);
    PadReadsBack(t.minute);
    PadReadsBack(t.second);
    DigitsReadBack(t.year);
  }

  lemma SixFields(y: string, a: string, b: string, c: string, d: string, e: string)
    requires |a| == |b| == |c| == |d| == |e| == 2
    ensures var s := y + a + b + c + d + e;
            var n := |s|;
            && n == |y| + 10 && s[..n - 10] == y && s[n - 10..n - 8] == a && s[n - 8..n - 6] == b
            && s[n - 6..n - 4] == c && s[n - 4..n - 2] == d && s[n - 2..] == e
  {
  }

  /** A day's characters read back as the date. */
  lemma DayReadsBack(t: When)
    requires IsDate(t) && t.year >= 0
    ensures var s := Day(t);
            var n := |s|;
            && n >= 7 && s[n - 6] == '-' && s[n - 3] == '-'
            && Value(s[..n - 6]) == t.year && Value(s[n - 5..n - 3]) == t.month + 1 && Value(s[n - 2..]) == t.day
  {
    PadReadsBack(t.month + 1);
    PadReadsBack(t.day);
    PadIs(t.month + 1);
    PadIs(t.day);
    DigitsReadBack(t.year);
    hide Pad, Digits, Value, AllDigits;
    ThreeFields(Digits(t.year), Pad(t.month + 1), Pad(t.day));
  }

  lemma ThreeFields(y: string, a: string, b: string)
    requires |a| == |b| == 2
    ensures var s := y + "-" + a + "-" + b;
            var n := |s|;
            && n == |y| + 6 && s[n - 6] == '-' && s[n - 3] == '-'
            && s[..n - 6] == y && s[n - 5..n - 3] == a && s[n - 2..] == b
  {
  }

  function LowerAscii(c: char): char { if 'A' <= c <= 'Z' then (c as int + 32) as char else c }

  function Lowered(s: string): string { seq(|s|, i requires 0 <= i < |s| => LowerAscii(s[i])) }

  /** The key, in lower case, is " (conflict ". */
  lemma KeyAtIff(s: string, k: int)
    ensures KeyAt(s, k) <==> 0 <= k <= |s| - 11 && Lowered(s[k..k + 11]) == " (conflict "
  {
    if 0 <= k <= |s| - 11 { KeyTextIff(s[k..k + 11], s, k); }
  }

  lemma KeyTextIff(t: string, s: string, k: int)
    requires 0 <= k <= |s| - 11 && t == s[k..k + 11]
    ensures KeyAt(s, k) <==> Lowered(t) == " (conflict "
  {
    var l, key := Lowered(t), " (conflict ";
    assert l == key <==> forall i :: 0 <= i < 11 ==> l[i] == key[i];
    assert t[0] == s[k] && t[1] == s[k + 1] && t[2] == s[k + 2] && t[3] == s[k + 3] && t[4] == s[k + 4] && t[5] == s[k + 5];
    assert t[6] == s[k + 6] && t[7] == s[k + 7] && t[8] == s[k + 8] && t[9] == s[k + 9] && t[10] == s[k + 10];
    if l == key {
      assert l[0] == ' ' && l[1] == '(' && l[2] == 'c' && l[3] == 'o' && l[4] == 'n' && l[5] == 'f';
      assert l[6] == 'l' && l[7] == 'i' && l[8] == 'c' && l[9] == 't' && l[10] == ' ';
    }
    if KeyAt(s, k) {
      assert l[0] == ' ' && l[1] == '(' && l[2] == 'c' && l[3] == 'o' && l[4] == 'n' && l[5] == 'f';
      assert l[6] == 'l' && l[7] == 'i' && l[8] == 'c' && l[9] == 't' && l[10] == ' ';
      assert l == key;
    }
  }

  /** One line: none of the four characters that end one. */
  lemma OneLineIff(s: string)
    ensures OneLine(s) <==> '\n' !in s && '\r' !in s && '\U{2028}' !in s && '\U{2029}' !in s
  {
    if OneLine(s) {
      assert forall c :: c in s ==> !IsLineEnd(c);
    } else {
      var i :| 0 <= i < |s| && IsLineEnd(s[i]);
      assert s[i] in s;
    }
  }

  /** The characters a stamp and a tag are made of, by their codes. */
  lemma StampCharsIff(s: string)
    ensures AllDigits(s) <==> forall c :: c in s ==> 48 <= c as int <= 57
    ensures AllAlnum(s) <==> forall c :: c in s ==> 48 <= c as int <= 57 || 97 <= LowerAscii(c) as int <= 122
  {
    assert forall i :: 0 <= i < |s| ==> s[i] in s;
  }

  /** What the expression matches, with a first group of length k: on one line the group, then the
      key in any case, then something on one line, a space, a stamp and the closing parenthesis. */
  lemma MatchesIff(stem: string, k: int)
    ensures MatchesAt(stem, k) <==>
      && 0 <= k <= |stem| - 11 && Lowered(stem[k..k + 11]) == " (conflict " && OneLine(stem[..k])
      && exists x, w :: x != "" && OneLine(x) && IsStamp(w) && stem[k + 11..] == x + " " + w + ")"
  {
    KeyAtIff(stem, k);
    hide KeyAt, OneLine, IsStamp, Lowered;
    if KeyAt(stem, k) {
      KeyFits(stem, k);
      BodyTextIff(stem[k + 11..]);
      if k + 11 < |stem| { assert stem[k + 11..|stem| - 1] == stem[k + 11..][..|stem| - k - 12]; }
    }
  }

  lemma BodyTextIff(t: string)
    ensures (t != "" && t[|t| - 1] == ')' && IsBody(t[..|t| - 1]))
       <==> exists x, w :: x != "" && OneLine(x) && IsStamp(w) && t == x + " " + w + ")"
  {
    hide OneLine, IsStamp;
    if t != "" && t[|t| - 1] == ')' && IsBody(t[..|t| - 1]) {
      var b := t[..|t| - 1];
      var i :| 0 < i < |b| && b[i] == ' ' && OneLine(b[..i]) && IsStamp(b[i + 1..]);
      BodyParts(t, i);
    }
    hide IsBody;
    if x, w :| x != "" && OneLine(x) && IsStamp(w) && t == x + " " + w + ")" { PartsMakeBody(x, w, t); }
  }

  lemma BodyParts(t: string, i: int)
    requires 0 <= i < |t| - 1 && t[i] == ' ' && t[|t| - 1] == ')'
    ensures t == t[..|t| - 1][..i] + " " + t[..|t| - 1][i + 1..] + ")"
  {
  }

  lemma PartsMakeBody(x: string, w: string, t: string)
    requires x != "" && OneLine(x) && IsStamp(w) && t == x + " " + w + ")"
    ensures t != "" && t[|t| - 1] == ')' && IsBody(t[..|t| - 1])
  {
    hide OneLine, IsStamp;
    var b := x + " " + w;
    assert t[..|t| - 1] == b;
    assert b[..|x|] == x && b[|x|] == ' ' && b[|x| + 1..] == w;
  }

  /** A stamp: fourteen digits and, if there is a tag, a dash and the tag. */
  lemma IsStampIff(w: string)
    ensures IsStamp(w) <==> exists d, tag :: |d| == 14 && AllDigits(d) && AllAlnum(tag) && w == d + Suffix(tag)
  {
    if IsStamp(w) {
      var tag := if |w| == 14 then "" else w[15..];
      assert w == w[..14] + Suffix(tag);
    }
    if d, tag :| |d| == 14 && AllDigits(d) && AllAlnum(tag) && w == d + Suffix(tag) {
      StampWord(d, tag);
    }
  }

  // ----- the names, spelled out once -----

  /** 18 July 2026, 09:05:03. */
  function ADate(): When { When(2026, 6, 18, 9, 5, 3) }

  lemma PadsOfADate()
    ensures Digits(2026) == "2026" && Pad(7) == "07" && Pad(18) == "18" && Pad(9) == "09" && Pad(5) == "05" && Pad(3) == "03"
    ensures Digits(2) == "2"
  {
    assert Digits(20) == "20" && Digits(202) == "202" && Digits(1) == "1" && Digits(18) == "18";
  }

  lemma PartsOfAPath()
    ensures SplitPath("a/b.md") == Parts("a/", "b", ".md")
  {
    assert Whole(Parts("a/", "b", ".md")) == "a/b.md";
    SplitPathIs(Parts("a/", "b", ".md"));
  }

  lemma StampOfADate()
    ensures Stamp(ADate()) == "20260718090503"
  {
    PadsOfADate();
    hide Digits, Pad;
    assert "2026" + "07" + "18" == "20260718" && "20260718" + "09" + "05" + "03" == "20260718090503";
  }

  lemma DayOfADate()
    ensures Day(ADate()) == "2026-07-18"
  {
    PadsOfADate();
    hide Digits, Pad;
  }

  lemma MarkerSpelledOut()
    ensures Marker("Pixel", Stamp(ADate()) + Suffix("c0ffee")) == " (conflict Pixel " + "20260718090503" + "-c0ffee)"
  {
    StampOfADate();
    hide Stamp;
    assert " (conflict " + "Pixel" + " " == " (conflict Pixel ";
    assert Suffix("c0ffee") + ")" == "-c0ffee)";
    AroundStamp(" (conflict Pixel ", "20260718090503", Suffix("c0ffee"), ")");
  }

  lemma AroundStamp(a: string, b: string, c: string, d: string)
    ensures a + (b + c) + d == a + b + (c + d)
  {
  }

  lemma CopyNameSpelledOut()
    ensures ConflictCopyName("a/b.md", "Pixel", ADate(), "c0ffee")
         == "a/b" + (" (conflict Pixel " + "20260718090503" + "-c0ffee)") + ".md"
  {
    PartsOfAPath();
    MarkerSpelledOut();
    hide SplitPath, Stamp, Marker, Suffix;
    assert "a/" + "b" == "a/b";
  }

  lemma LabelSpelledOut()
    ensures Label(ADate(), 0) == " (this device's version 2026-07-18)"
    ensures Label(ADate(), 1) == " (this device's version 2026-07-18 2)"
  {
    DayOfADate();
    PadsOfADate();
    hide Day, Digits;
    assert Counter(1) == " 2";
  }

  lemma KeptBothNameSpelledOut()
    ensures KeptBothName("a/b.md", ADate(), 0) == "a/b" + " (this device's version 2026-07-18)" + ".md"
    ensures KeptBothName("a/b.md", ADate(), 1) == "a/b" + " (this device's version 2026-07-18 2)" + ".md"
  {
    PartsOfAPath();
    LabelSpelledOut();
    hide SplitPath, Label;
    assert "a/" + "b" == "a/b";
  }
}
