/** The Python string operations the modelled code relies on, on `string` = `seq<char>`. */
module Text {
  import opened Wrappers

  /** Python's `str.isspace` for one character: the characters `str.rstrip()` removes by default. */
  predicate IsSpace(c: char) {
    || c == ' '
    || ('\U{09}' <= c <= '\U{0D}')
    || ('\U{1C}' <= c <= '\U{1F}')
    || c == '\U{85}' || c == '\U{A0}' || c == '\U{1680}'
    || ('\U{2000}' <= c <= '\U{200A}')
    || c == '\U{2028}' || c == '\U{2029}' || c == '\U{202F}' || c == '\U{205F}' || c == '\U{3000}'
  }

  /** A line break as far as reading a text file is concerned. */
  predicate IsBreak(c: char) {
    c == '\n' || c == '\r'
  }

  /** `s.rstrip()`: the longest prefix of `s` that does not end in white space. */
  function RStrip(s: string): (r: string)
    ensures |r| <= |s| && r == s[..|r|]
    ensures r == [] || !IsSpace(r[|r| - 1])
    ensures forall i :: |r| <= i < |s| ==> IsSpace(s[i])
  {
    if |s| > 0 && IsSpace(s[|s| - 1]) then RStrip(s[..|s| - 1]) else s
  }

  /** `s.rstrip(c)` for a single character `c`. */
  function RStripChar(s: string, c: char): (r: string)
    ensures |r| <= |s| && r == s[..|r|]
    ensures r == [] || r[|r| - 1] != c
    ensures forall i :: |r| <= i < |s| ==> s[i] == c
  {
    if |s| > 0 && s[|s| - 1] == c then RStripChar(s[..|s| - 1], c) else s
  }

  /** `s.lstrip(c)` for a single character `c`. */
  function LStripChar(s: string, c: char): (r: string)
    ensures |r| <= |s| && r == s[|s| - |r|..]
    ensures r == [] || r[0] != c
    ensures forall i :: 0 <= i < |s| - |r| ==> s[i] == c
  {
    if |s| > 0 && s[0] == c then LStripChar(s[1..], c) else s
  }

  /** `s.strip(c)` for a single character `c`. */
  function StripChar(s: string, c: char): string {
    RStripChar(LStripChar(s, c), c)
  }

  predicate StartsWith(s: string, prefix: string) {
    |prefix| <= |s| && s[..|prefix|] == prefix
  }

  predicate EndsWith(s: string, suffix: string) {
    |suffix| <= |s| && s[|s| - |suffix|..] == suffix
  }

  /** `sub` occurs in `s` starting at position `i`. */
  predicate OccursAt(s: string, sub: string, i: nat) {
    i + |sub| <= |s| && s[i..i + |sub|] == sub
  }

  /** Python's `sub in s`. */
  predicate Contains(s: string, sub: string) {
    exists i :: 0 <= i <= |s| - |sub| && OccursAt(s, sub, i)
  }

  /** The position of the first `c` in `s`, if any. */
  function IndexOf(s: string, c: char): (r: Option<nat>)
    ensures r.Some? ==> r.value < |s| && s[r.value] == c && c !in s[..r.value]
    ensures r.None? <==> c !in s
  {
    if |s| == 0 then None
    else if s[0] == c then Some(0)
    else match IndexOf(s[1..], c)
      case None => None
      case Some(i) => Some(i + 1)
  }

  /** `s.split(c, 1)` unpacked into two names: `None` where Python's unpacking raises `ValueError`. */
  function SplitFirst(s: string, c: char): (r: Option<(string, string)>)
    ensures r.None? <==> c !in s
    ensures r.Some? ==> s == r.value.0 + [c] + r.value.1 && c !in r.value.0
  {
    match IndexOf(s, c)
    case None => None
    case Some(i) => Some((s[..i], s[i + 1..]))
  }

  /** `s.split(c)`: every field between occurrences of `c`. */
  function Split(s: string, c: char): (r: seq<string>)
    ensures |r| > 0
    ensures forall i :: 0 <= i < |r| ==> c !in r[i]
    decreases |s|
  {
    match IndexOf(s, c)
    case None => [s]
    case Some(i) => [s[..i]] + Split(s[i + 1..], c)
  }

  /** `sep.join(parts)`. */
  function Join(sep: string, parts: seq<string>): string {
    if |parts| == 0 then ""
    else if |parts| == 1 then parts[0]
    else parts[0] + sep + Join(sep, parts[1..])
  }

  /** `''.join(parts)`. */
  function Concat(parts: seq<string>): string {
    if |parts| == 0 then "" else parts[0] + Concat(parts[1..])
  }

  /** `s.replace(a, b)` for single characters. */
  function ReplaceChar(s: string, a: char, b: char): (r: string)
    ensures |r| == |s|
    ensures forall i :: 0 <= i < |s| ==> r[i] == if s[i] == a then b else s[i]
  {
    seq(|s|, i requires 0 <= i < |s| => if s[i] == a then b else s[i])
  }

  /** `s.replace(pat, rep)`: leftmost, non-overlapping occurrences of a non-empty pattern. */
  function ReplaceAll(s: string, pat: string, rep: string): (r: string)
    requires |pat| > 0
    decreases |s|
  {
    if |s| < |pat| then s
    else if s[..|pat|] == pat then rep + ReplaceAll(s[|pat|..], pat, rep)
    else [s[0]] + ReplaceAll(s[1..], pat, rep)
  }

  function LowerChar(c: char): char {
    if 'A' <= c <= 'Z' then (c as int + 32) as char else c
  }

  /** `s.lower()` on ASCII letters; other characters are kept. */
  function Lower(s: string): (r: string)
    ensures |r| == |s|
    ensures forall i :: 0 <= i < |s| ==> r[i] == LowerChar(s[i])
  {
    seq(|s|, i requires 0 <= i < |s| => LowerChar(s[i]))
  }

  /** Python's slice `s[:n]`. */
  function Take<T>(s: seq<T>, n: nat): seq<T> {
    if n <= |s| then s[..n] else s
  }

  /** Python's slice `s[-n:]`, which is the whole of `s` when `n` is 0 or at least `|s|`. */
  function LastN<T>(s: seq<T>, n: nat): (r: seq<T>)
    ensures n == 0 || |s| <= n ==> r == s
    ensures 0 < n <= |s| ==> |r| == n
    ensures |r| <= |s| && r == s[|s| - |r|..]
  {
    if n == 0 || |s| <= n then s else s[|s| - n..]
  }

  /** `'{:<w}'.format(s)`: `s` padded on the right with spaces to width `w`. */
  function PadRight(s: string, w: nat): (r: string)
    ensures |r| == if |s| < w then w else |s|
    ensures r[..|s|] == s
  {
    if |s| < w then s + seq(w - |s|, _ => ' ') else s
  }

  /** `'{:^w}'.format(s)`: `s` centred, the odd space going to the right. */
  function Center(s: string, w: nat): (r: string)
    ensures |r| == if |s| < w then w else |s|
  {
    if |s| < w then
      var left := (w - |s|) / 2;
      seq(left, _ => ' ') + s + seq(w - |s| - left, _ => ' ')
    else s
  }

  /** Universal-newline translation done by Python's text-mode reads: `\r\n` and `\r` become `\n`. */
  function Translate(s: string): (r: string)
    ensures '\r' !in r
    decreases |s|
  {
    if |s| == 0 then ""
    else if s[0] == '\r' && |s| > 1 && s[1] == '\n' then "\n" + Translate(s[2..])
    else if s[0] == '\r' then "\n" + Translate(s[1..])
    else [s[0]] + Translate(s[1..])
  }

  /** The lines iterating over a text-mode file yields: each keeps its `\n`, the last may lack one. */
  function Lines(s: string): (r: seq<string>)
    ensures Concat(r) == s
    ensures forall i :: 0 <= i < |r| ==> |r[i]| > 0
    decreases |s|
  {
    if |s| == 0 then []
    else match IndexOf(s, '\n')
      case None => [s]
      case Some(i) => [s[..i + 1]] + Lines(s[i + 1..])
  }

  /** The lines Python reads from a text file whose stored content is `s`. */
  function ReadLines(s: string): seq<string> {
    Lines(Translate(s))
  }

  // ---------------------------------------------------------------------------------------------
  // Lemmas

  lemma {:induction false} TranslateIdentity(s: string)
    requires '\r' !in s
    ensures Translate(s) == s
    decreases |s|
  {
    if |s| > 0 {
      assert '\r' !in s[1..];
      TranslateIdentity(s[1..]);
    }
  }

  lemma {:induction false} IndexOfAppend(x: string, c: char, rest: string)
    requires c !in x
    ensures IndexOf(x + [c] + rest, c) == Some(|x|)
    decreases |x|
  {
    var s := x + [c] + rest;
    if |x| > 0 {
      assert s[1..] == x[1..] + [c] + rest;
      IndexOfAppend(x[1..], c, rest);
    }
  }

  /** A first field free of `c` splits off as it is. */
  lemma SplitCons(x: string, c: char, rest: string)
    requires c !in x
    ensures Split(x + [c] + rest, c) == [x] + Split(rest, c)
  {
    var s := x + [c] + rest;
    IndexOfAppend(x, c, rest);
    assert s[..|x|] == x;
    assert s[|x| + 1..] == rest;
  }

  /** Splitting and joining at the same character are inverse. */
  lemma {:induction false} JoinSplit(s: string, c: char)
    ensures Join([c], Split(s, c)) == s
    decreases |s|
  {
    match IndexOf(s, c)
    case None =>
    case Some(i) =>
      var rest := s[i + 1..];
      JoinSplit(rest, c);
      calc {
        Join([c], Split(s, c));
        Join([c], [s[..i]] + Split(rest, c));
        { assert ([s[..i]] + Split(rest, c))[1..] == Split(rest, c); }
        s[..i] + [c] + Join([c], Split(rest, c));
        s[..i] + [c] + rest;
        { assert s == s[..i] + [s[i]] + s[i + 1..]; }
        s;
      }
  }

  /** Appending one part appends its text. */
  lemma {:induction false} ConcatSnoc(xs: seq<string>, x: string)
    ensures Concat(xs + [x]) == Concat(xs) + x
    decreases |xs|
  {
    if |xs| > 0 {
      assert (xs + [x])[1..] == xs[1..] + [x];
      ConcatSnoc(xs[1..], x);
    }
  }

  /** A line `x + "\n"` whose body holds no line break is read back as one line. */
  lemma {:induction false} LinesCons(x: string, rest: string)
    requires '\n' !in x
    ensures Lines(x + "\n" + rest) == [x + "\n"] + Lines(rest)
  {
    var s := x + "\n" + rest;
    IndexOfAppend(x, '\n', rest);
    assert s[..|x| + 1] == x + "\n";
    assert s[|x| + 1..] == rest;
  }

  /** The lines of `'\n'.join(xs) + '\n'` are the `xs`, each with its newline back. */
  lemma {:induction false} LinesOfJoin(xs: seq<string>)
    requires |xs| > 0
    requires forall i :: 0 <= i < |xs| ==> '\n' !in xs[i]
    ensures var ls := Lines(Join("\n", xs) + "\n");
      |ls| == |xs| && forall i :: 0 <= i < |xs| ==> ls[i] == xs[i] + "\n"
    decreases |xs|
  {
    if |xs| == 1 {
      LinesCons(xs[0], "");
      assert Join("\n", xs) + "\n" == xs[0] + "\n" + "";
    } else {
      var tail := xs[1..];
      var rest := Join("\n", tail) + "\n";
      LinesOfJoin(tail);
      JoinLineCons(xs);
      LinesCons(xs[0], rest);
      var ls := Lines(Join("\n", xs) + "\n");
      assert ls == [xs[0] + "\n"] + Lines(rest);
      forall i | 1 <= i < |xs| ensures ls[i] == xs[i] + "\n" {
        assert ls[i] == Lines(rest)[i - 1];
        assert tail[i - 1] == xs[i];
      }
    }
  }

  lemma JoinLineCons(xs: seq<string>)
    requires |xs| > 1
    ensures Join("\n", xs) + "\n" == xs[0] + "\n" + (Join("\n", xs[1..]) + "\n")
  {
    assert Join("\n", xs) == xs[0] + "\n" + Join("\n", xs[1..]);
  }

  /** Replacing characters commutes with concatenation. */
  lemma ReplaceCharAppend(x: string, y: string, a: char, b: char)
    ensures ReplaceChar(x + y, a, b) == ReplaceChar(x, a, b) + ReplaceChar(y, a, b)
  {
    var l := ReplaceChar(x + y, a, b);
    var r := ReplaceChar(x, a, b) + ReplaceChar(y, a, b);
    forall i | 0 <= i < |l| ensures l[i] == r[i] {
      if i < |x| {
        assert (x + y)[i] == x[i];
      } else {
        assert (x + y)[i] == y[i - |x|];
      }
    }
  }

  /** Replacing `a` by `b` and then `b` by `a` is the identity when `s` held no `b`. */
  lemma ReplaceCharBack(s: string, a: char, b: char)
    requires b !in s
    ensures ReplaceChar(ReplaceChar(s, a, b), b, a) == s
  {
    var r := ReplaceChar(ReplaceChar(s, a, b), b, a);
    assert forall i :: 0 <= i < |s| ==> r[i] == s[i] by {
      forall i | 0 <= i < |s| ensures r[i] == s[i] {
        assert s[i] != b;
      }
    }
  }

  /** Python's `s.replace(".jar", "")` undoes appending `.jar` to a name that holds no `.jar`. */
  lemma {:induction false} DropJarSuffix(s: string)
    requires !Contains(s, ".jar")
    ensures ReplaceAll(s + ".jar", ".jar", "") == s
    decreases |s|
  {
    var t := s + ".jar";
    if |s| == 0 {
      assert t[..4] == ".jar";
      assert t[4..] == "";
    } else {
      JarNotAtHead(s);
      NoJarInTail(s);
      DropJarSuffix(s[1..]);
      assert t[1..] == s[1..] + ".jar";
      assert [s[0]] + s[1..] == s;
    }
  }

  lemma JarNotAtHead(s: string)
    requires |s| > 0 && !Contains(s, ".jar")
    ensures (s + ".jar")[..4] != ".jar"
  {
    var t := s + ".jar";
    if 4 <= |s| {
      assert !OccursAt(s, ".jar", 0);
      assert t[..4] == s[..4];
    } else {
      assert t[|s|] == '.';
      assert ".jar"[|s|] != '.';
      assert t[..4][|s|] == t[|s|];
    }
  }

  lemma NoJarInTail(s: string)
    requires |s| > 0 && !Contains(s, ".jar")
    ensures !Contains(s[1..], ".jar")
  {
    forall i | 0 <= i <= |s[1..]| - 4 ensures !OccursAt(s[1..], ".jar", i) {
      OccursShift(s, ".jar", i);
    }
  }

  /** An occurrence in `s[1..]` is one in `s`, one position later. */
  lemma OccursShift(s: string, sub: string, i: nat)
    requires |s| > 0
    ensures OccursAt(s[1..], sub, i) ==> OccursAt(s, sub, i + 1)
  {
    if i + |sub| <= |s| - 1 {
      assert s[1..][i..i + |sub|] == s[i + 1..i + 1 + |sub|];
    }
  }
}
