/** The properties store of src/mcctl/config.py: `KEY=VALUE` files read into an insertion-ordered
    dict, merged with new entries and written back, and the EULA dialog that flips `eula=false`. */
module Config {
  import opened Wrappers
  import opened Text
  import opened Host

  // ---------------------------------------------------------------------------------------------
  // Python's insertion-ordered dict, as a list of (key, value) pairs.

  type Dict = seq<(string, string)>

  function Keys(d: Dict): (r: seq<string>)
    ensures |r| == |d| && forall i :: 0 <= i < |d| ==> r[i] == d[i].0
  {
    seq(|d|, i requires 0 <= i < |d| => d[i].0)
  }

  /** Every key occurs once, as in a Python dict. */
  predicate DistinctKeys(d: Dict) {
    forall i, j :: 0 <= i < j < |d| ==> d[i].0 != d[j].0
  }

  /** `d.get(k)`. */
  function Get(d: Dict, k: string): (r: Option<string>)
    ensures r.None? <==> k !in Keys(d)
    ensures r.Some? ==> (k, r.value) in d
  {
    if |d| == 0 then None
    else if d[0].0 == k then Some(d[0].1)
    else Get(d[1..], k)
  }

  /** `d[k] = v`: an existing key keeps its place and takes the new value, a new key goes last. */
  function Put(d: Dict, k: string, v: string): (r: Dict)
    ensures |r| == if k in Keys(d) then |d| else |d| + 1
  {
    if |d| == 0 then [(k, v)]
    else if d[0].0 == k then [(k, v)] + d[1..]
    else [d[0]] + Put(d[1..], k, v)
  }

  /** `d[k] = v` changes the lookup of `k` and of nothing else. */
  lemma {:induction false} PutGet(d: Dict, k: string, v: string, k': string)
    ensures Get(Put(d, k, v), k') == if k' == k then Some(v) else Get(d, k')
    decreases |d|
  {
    if |d| > 0 && d[0].0 != k {
      assert Put(d, k, v)[1..] == Put(d[1..], k, v);
      PutGet(d[1..], k, v, k');
    }
  }

  /** `d[k] = v` keeps the key order; a new key is appended. */
  lemma {:induction false} PutKeys(d: Dict, k: string, v: string)
    ensures Keys(Put(d, k, v)) == if k in Keys(d) then Keys(d) else Keys(d) + [k]
    decreases |d|
  {
    if |d| > 0 && d[0].0 != k {
      assert Keys(d[1..]) == Keys(d)[1..];
      PutKeys(d[1..], k, v);
      assert Put(d, k, v) == [d[0]] + Put(d[1..], k, v);
      assert Keys(Put(d, k, v)) == [d[0].0] + Keys(Put(d[1..], k, v));
      assert k in Keys(d) <==> k in Keys(d[1..]);
    }
  }

  /** Every entry after `d[k] = v` was in `d` or is the new one. */
  lemma {:induction false} PutEntries(d: Dict, k: string, v: string)
    ensures forall e :: e in Put(d, k, v) ==> e in d || e == (k, v)
    decreases |d|
  {
    if |d| > 0 && d[0].0 != k {
      PutEntries(d[1..], k, v);
      assert forall e :: e in d[1..] ==> e in d;
    }
  }

  /** `d[k] = v` keeps the keys distinct. */
  lemma {:induction false} PutDistinct(d: Dict, k: string, v: string)
    requires DistinctKeys(d)
    ensures DistinctKeys(Put(d, k, v))
  {
    var r := Put(d, k, v);
    PutKeys(d, k, v);
    forall i, j | 0 <= i < j < |r| ensures r[i].0 != r[j].0 {
      assert Keys(r)[i] == r[i].0 && Keys(r)[j] == r[j].0;
      if j < |d| {
        assert Keys(d)[i] == d[i].0 && Keys(d)[j] == d[j].0;
      } else {
        assert Keys(d)[i] == d[i].0;
      }
    }
  }

  /** `d.update(p)` for a dict `p`: its entries are put in its own order. */
  function Update(d: Dict, p: Dict): Dict
    decreases |p|
  {
    if |p| == 0 then d else Update(Put(d, p[0].0, p[0].1), p[1..])
  }

  /** The keys of `p` that `d` lacks, in `p`'s order. */
  function NewKeys(ks: seq<string>, p: Dict): seq<string>
    decreases |p|
  {
    if |p| == 0 then [] else (if p[0].0 in ks then [] else [p[0].0]) + NewKeys(ks, p[1..])
  }

  // ---------------------------------------------------------------------------------------------
  // Reading

  /** A line whose right-stripped text starts with `#` is skipped. */
  predicate IsComment(line: string) {
    StartsWith(RStrip(line), "#")
  }

  /** The (key, value) a non-comment line defines: split at its first `=`. */
  function Entry(line: string): Option<(string, string)> {
    SplitFirst(RStrip(line), '=')
  }

  /** A line that makes `propertiesToDict` raise `ValueError`: not a comment and without `=`. */
  predicate Malformed(line: string) {
    !IsComment(line) && Entry(line).None?
  }

  /** The loop of `propertiesToDict` from dict `acc` onwards over `lines`. */
  function ParseFrom(acc: Dict, lines: seq<string>): Result<Dict>
    decreases |lines|
  {
    if |lines| == 0 then Ok(acc)
    else if IsComment(lines[0]) then ParseFrom(acc, lines[1..])
    else match Entry(lines[0])
      case None => Err(ValueError)
      case Some(kv) => ParseFrom(Put(acc, kv.0, kv.1), lines[1..])
  }

  function Parse(lines: seq<string>): Result<Dict> {
    ParseFrom([], lines)
  }

  /** `propertiesToDict`: fills a dict line by line; a line without `=` raises `ValueError`. */
  method PropertiesToDict(lines: seq<string>) returns (r: Result<Dict>)
    ensures r == Parse(lines)
  {
    var d: Dict := [];
    var i := 0;
    while i < |lines|
      invariant 0 <= i <= |lines|
      invariant ParseFrom(d, lines[i..]) == Parse(lines)
    {
      assert lines[i..][1..] == lines[i + 1..];
      var line := RStrip(lines[i]);
      if !StartsWith(line, "#") {
        match SplitFirst(line, '=')
        case None =>
          return Err(ValueError);
        case Some(kv) =>
          d := Put(d, kv.0, kv.1);
      }
      i := i + 1;
    }
    r := Ok(d);
  }

  /** The value the last non-comment line with key `k` gives it, if any: the reference meaning of
      "a later duplicate overrides an earlier one". */
  function LastValue(lines: seq<string>, k: string): Option<string>
    decreases |lines|
  {
    if |lines| == 0 then None
    else match LastValue(lines[1..], k)
      case Some(v) => Some(v)
      case None =>
        if !IsComment(lines[0]) && Entry(lines[0]).Some? && Entry(lines[0]).value.0 == k
        then Some(Entry(lines[0]).value.1) else None
  }

  /** The dict a file with stored text `content` reads as. */
  function ParseContent(content: string): Result<Dict> {
    Parse(ReadLines(content))
  }

  // ---------------------------------------------------------------------------------------------
  // Writing

  function EntryText(e: (string, string)): string {
    e.0 + "=" + e.1
  }

  /** What `setProperties` writes: `'\n'.join(k=v for each entry) + '\n'`. */
  function Serialize(d: Dict): string {
    Join("\n", seq(|d|, i requires 0 <= i < |d| => EntryText(d[i]))) + "\n"
  }

  /** The file text `setProperties` leaves behind when the file held `content`. */
  function Rewrite(content: string, props: Dict): Result<string> {
    match ParseContent(content)
    case Err(e) => Err(e)
    case Ok(d) => Ok(Serialize(Update(d, props)))
  }

  /** A key that survives a write and a read: no `=`, no line break, no leading `#`. */
  predicate CleanKey(k: string) {
    '=' !in k && '\n' !in k && '\r' !in k && !StartsWith(k, "#")
  }

  /** A value that survives a write and a read: no line break and no trailing white space. */
  predicate CleanValue(v: string) {
    '\n' !in v && '\r' !in v && (v == [] || !IsSpace(v[|v| - 1]))
  }

  predicate Clean(d: Dict) {
    forall e :: e in d ==> CleanKey(e.0) && CleanValue(e.1)
  }

  // ---------------------------------------------------------------------------------------------
  // The file operations

  /** `getProperties`. */
  method GetProperties(fs: FileSystem, path: Path) returns (r: Result<Dict>)
    ensures path in fs.dirs ==> r == Err(IsADirectoryError)
    ensures path !in fs.dirs && path !in fs.files ==> r == Err(FileNotFoundError)
    ensures path !in fs.dirs && path in fs.files ==> r == ParseContent(fs.files[path])
  {
    if path in fs.dirs {
      return Err(IsADirectoryError);
    }
    if path !in fs.files {
      return Err(FileNotFoundError);
    }
    r := PropertiesToDict(ReadLines(fs.files[path]));
  }

  /** `setProperties`: touch the file if missing, read it, merge `props` over it and rewrite it
      from the start, truncating whatever is left. A file that does not parse stays as it was
      (touched). */
  method SetProperties(fs: FileSystem, path: Path, props: Dict) returns (r: Result<()>)
    requires DistinctKeys(props)
    modifies fs
    ensures fs.dirs == old(fs.dirs) && fs.modes == old(fs.modes)
    ensures path in old(fs.dirs) ==> r == Err(IsADirectoryError) && fs.files == old(fs.files)
    ensures !old(fs.Exists(path)) && Parent(path) !in old(fs.dirs) ==>
              r == Err(FileNotFoundError) && fs.files == old(fs.files)
    ensures path !in old(fs.dirs) && (old(fs.Exists(path)) || Parent(path) in old(fs.dirs)) ==>
              var before := TextOf(old(fs.files), path);
              match Rewrite(before, props)
              case Err(e) => r == Err(e) && fs.files == old(fs.files)[path := before]
              case Ok(after) => r == Ok(()) && fs.files == old(fs.files)[path := after]
  {
    if path in fs.dirs {
      return Err(IsADirectoryError);
    }
    if path !in fs.files {
      var t := fs.WriteText(path, "");
      if t.Err? {
        return Err(FileNotFoundError);
      }
    }
    var oldConfig := PropertiesToDict(ReadLines(fs.files[path]));
    if oldConfig.Err? {
      return Err(oldConfig.error);
    }
    var newConfig := Update(oldConfig.value, props);
    var w := fs.WriteText(path, Serialize(newConfig));
    r := Ok(());
  }

  // ---------------------------------------------------------------------------------------------
  // The EULA dialog

  /** The first line that does not start with `#`: the one the dialog asks about. */
  function SettingLine(lines: seq<string>): (r: Option<nat>)
    ensures r.Some? ==> r.value < |lines| && !StartsWith(lines[r.value], "#")
    ensures r.Some? ==> forall j :: 0 <= j < r.value ==> StartsWith(lines[j], "#")
    ensures r.None? ==> forall j :: 0 <= j < |lines| ==> StartsWith(lines[j], "#")
  {
    if |lines| == 0 then None
    else if !StartsWith(lines[0], "#") then Some(0)
    else match SettingLine(lines[1..])
      case None => None
      case Some(i) => Some(i + 1)
  }

  /** The accepted file: the comment lines before the setting line, then the setting line with
      every `eula=false` replaced by `eula=true`; nothing after it. */
  function AcceptedText(lines: seq<string>, i: nat): string
    requires i < |lines|
  {
    Concat(lines[..i]) + ReplaceAll(lines[i], "eula=false", "eula=true")
  }

  /** `acceptEula`, with the accepting and declining words `yes` and `no` of the revision at hand.
      Its Python result is `Some(b)`; `None` stands for the implicit `None` it returns when the
      file has no setting line. */
  method EulaDialog(fs: FileSystem, instancePath: Path, answers: seq<string>, yes: string, no: string)
      returns (r: Result<Option<bool>>)
    requires Lower(yes) == yes
    modifies fs
    ensures fs.dirs == old(fs.dirs) && fs.modes == old(fs.modes)
    ensures var path := instancePath + ["eula.txt"];
      if !old(fs.Exists(path)) then r == Err(AssertionError) && fs.files == old(fs.files)
      else if path in old(fs.dirs) then r == Err(IsADirectoryError) && fs.files == old(fs.files)
      else
        var lines := ReadLines(old(fs.files)[path]);
        match SettingLine(lines)
        case None => r == Ok(None) && fs.files == old(fs.files)
        case Some(i) =>
          match Answer(answers, {yes, no})
          case Err(e) => r == Err(e) && fs.files == old(fs.files)
          case Ok(a) =>
            && r == Ok(Some(Lower(a) == yes))
            && fs.files == if Lower(a) == yes then old(fs.files)[path := AcceptedText(lines, i)] else old(fs.files)
  {
    var path := instancePath + ["eula.txt"];
    if !fs.Exists(path) {
      return Err(AssertionError);
    }
    if path in fs.dirs {
      return Err(IsADirectoryError);
    }
    var lines := ReadLines(fs.files[path]);
    r := EulaLoop(fs, path, lines, answers, yes, no);
  }

  /** The loop of the EULA dialog over the lines of `path`, which is a file: comment lines are
      kept, the first other line is the setting the operator is asked about. */
  method EulaLoop(fs: FileSystem, path: Path, lines: seq<string>, answers: seq<string>, yes: string, no: string)
      returns (r: Result<Option<bool>>)
    requires Lower(yes) == yes
    requires path in fs.files && path !in fs.dirs
    modifies fs
    ensures fs.dirs == old(fs.dirs) && fs.modes == old(fs.modes)
    ensures match SettingLine(lines)
      case None => r == Ok(None) && fs.files == old(fs.files)
      case Some(i) =>
        match Answer(answers, {yes, no})
        case Err(e) => r == Err(e) && fs.files == old(fs.files)
        case Ok(a) =>
          && r == Ok(Some(Lower(a) == yes))
          && fs.files == if Lower(a) == yes then old(fs.files)[path := AcceptedText(lines, i)] else old(fs.files)
  {
    var contents: seq<string> := [];
    var n := 0;
    while n < |lines|
      invariant 0 <= n <= |lines|
      invariant contents == lines[..n]
      invariant forall j :: 0 <= j < n ==> StartsWith(lines[j], "#")
      invariant SettingLine(lines).Some? ==> n <= SettingLine(lines).value
      invariant fs.files == old(fs.files) && fs.dirs == old(fs.dirs) && fs.modes == old(fs.modes)
    {
      var line := lines[n];
      if StartsWith(line, "#") {
        contents := contents + [line];
      } else {
        assert SettingLine(lines) == Some(n);
        var ans := Ask(answers, {yes, no});
        if ans.Err? {
          return Err(ans.error);
        }
        var accepted := Lower(ans.value) == yes;
        if accepted {
          contents := contents + [ReplaceAll(line, "eula=false", "eula=true")];
          assert Concat(contents) == AcceptedText(lines, n) by { ConcatSnoc(lines[..n], ReplaceAll(line, "eula=false", "eula=true")); }
          var w := fs.WriteText(path, Concat(contents));
        }
        return Ok(Some(accepted));
      }
      n := n + 1;
    }
    r := Ok(None);
  }

  /** `acceptEula` of src/mcctl/config.py: answered with `true` or `false`. */
  method AcceptEula(fs: FileSystem, instancePath: Path, answers: seq<string>) returns (r: Result<Option<bool>>)
    modifies fs
    ensures fs.dirs == old(fs.dirs) && fs.modes == old(fs.modes)
    ensures var path := instancePath + ["eula.txt"];
      if !old(fs.Exists(path)) then r == Err(AssertionError) && fs.files == old(fs.files)
      else if path in old(fs.dirs) then r == Err(IsADirectoryError) && fs.files == old(fs.files)
      else
        var lines := ReadLines(old(fs.files)[path]);
        match SettingLine(lines)
        case None => r == Ok(None) && fs.files == old(fs.files)
        case Some(i) =>
          match Answer(answers, {"true", "false"})
          case Err(e) => r == Err(e) && fs.files == old(fs.files)
          case Ok(a) =>
            && r == Ok(Some(Lower(a) == "true"))
            && fs.files == if Lower(a) == "true" then old(fs.files)[path := AcceptedText(lines, i)] else old(fs.files)
  {
    r := EulaDialog(fs, instancePath, answers, "true", "false");
  }

  // ---------------------------------------------------------------------------------------------
  // Lemmas

  lemma {:induction false} GetAbsent(d: Dict, k: string)
    requires k !in Keys(d)
    ensures Get(d, k) == None
  {
  }

  lemma GetAt(d: Dict, i: nat)
    requires DistinctKeys(d) && i < |d|
    ensures Get(d, d[i].0) == Some(d[i].1)
    decreases i
  {
    if i > 0 {
      assert d[1..][i - 1] == d[i];
      GetAt(d[1..], i - 1);
    }
  }

  /** Merge law, values: after `update`, a key mentioned in `p` has `p`'s value, any other key
      keeps the value it had. */
  lemma {:induction false} UpdateGet(d: Dict, p: Dict, k: string)
    requires DistinctKeys(p)
    ensures Get(Update(d, p), k) == if k in Keys(p) then Get(p, k) else Get(d, k)
    decreases |p|
  {
    if |p| > 0 {
      var tail := p[1..];
      assert Keys(p) == [p[0].0] + Keys(tail);
      UpdateGet(Put(d, p[0].0, p[0].1), tail, k);
      PutGet(d, p[0].0, p[0].1, k);
      if k == p[0].0 {
        assert k !in Keys(tail);
      }
    }
  }

  lemma {:induction false} NewKeysSkip(ks: seq<string>, k: string, p: Dict)
    requires k !in Keys(p)
    ensures NewKeys(ks + [k], p) == NewKeys(ks, p)
    decreases |p|
  {
    if |p| > 0 {
      assert Keys(p[1..]) == Keys(p)[1..];
      NewKeysSkip(ks, k, p[1..]);
    }
  }

  /** Merge law, order: the old keys keep their order and the new ones follow, in `p`'s order. */
  lemma {:induction false} UpdateKeys(d: Dict, p: Dict)
    requires DistinctKeys(p)
    ensures Keys(Update(d, p)) == Keys(d) + NewKeys(Keys(d), p)
    decreases |p|
  {
    if |p| > 0 {
      var k := p[0].0;
      var tail := p[1..];
      var d' := Put(d, k, p[0].1);
      assert Keys(Update(d, p)) == Keys(d') + NewKeys(Keys(d'), tail) by {
        assert DistinctKeys(tail);
        UpdateKeys(d', tail);
      }
      assert NewKeys(Keys(d), p) == (if k in Keys(d) then [] else [k]) + NewKeys(Keys(d), tail);
      if k in Keys(d) {
        assert Keys(d') == Keys(d) by { PutKeys(d, k, p[0].1); }
      } else {
        assert Keys(d') == Keys(d) + [k] by { PutKeys(d, k, p[0].1); }
        assert NewKeys(Keys(d'), tail) == NewKeys(Keys(d), tail) by {
          assert k !in Keys(tail) by {
            forall i | 0 <= i < |tail| ensures Keys(tail)[i] != k {
              assert p[i + 1].0 == tail[i].0;
            }
          }
          NewKeysSkip(Keys(d), k, tail);
        }
      }
    }
  }

  lemma {:induction false} UpdateDistinct(d: Dict, p: Dict)
    requires DistinctKeys(d)
    ensures DistinctKeys(Update(d, p))
    decreases |p|
  {
    if |p| > 0 {
      PutDistinct(d, p[0].0, p[0].1);
      UpdateDistinct(Put(d, p[0].0, p[0].1), p[1..]);
    }
  }

  lemma {:induction false} UpdateClean(d: Dict, p: Dict)
    requires Clean(d) && Clean(p)
    ensures Clean(Update(d, p))
    decreases |p|
  {
    if |p| > 0 {
      assert p[0] in p;
      assert forall e :: e in p[1..] ==> e in p;
      PutEntries(d, p[0].0, p[0].1);
      UpdateClean(Put(d, p[0].0, p[0].1), p[1..]);
    }
  }

  lemma {:induction false} PutExisting(d: Dict, k: string, v: string)
    requires DistinctKeys(d) && Get(d, k) == Some(v)
    ensures Put(d, k, v) == d
    decreases |d|
  {
    if |d| > 0 && d[0].0 != k {
      PutExisting(d[1..], k, v);
    }
  }

  lemma {:induction false} UpdateNoop(m: Dict, p: Dict)
    requires DistinctKeys(m)
    requires forall e :: e in p ==> Get(m, e.0) == Some(e.1)
    ensures Update(m, p) == m
    decreases |p|
  {
    if |p| > 0 {
      assert p[0] in p;
      PutExisting(m, p[0].0, p[0].1);
      assert forall e :: e in p[1..] ==> e in p;
      UpdateNoop(m, p[1..]);
    }
  }

  /** Updating twice with the same dict is updating once. */
  lemma UpdateTwice(d: Dict, p: Dict)
    requires DistinctKeys(d) && DistinctKeys(p)
    ensures Update(Update(d, p), p) == Update(d, p)
  {
    var m := Update(d, p);
    UpdateDistinct(d, p);
    forall e | e in p ensures Get(m, e.0) == Some(e.1) {
      var i :| 0 <= i < |p| && p[i] == e;
      UpdateGet(d, p, e.0);
      GetAt(p, i);
    }
    UpdateNoop(m, p);
  }

  /** A parse error happens exactly when some line is malformed. */
  lemma {:induction false} ParseFromErr(acc: Dict, lines: seq<string>)
    ensures ParseFrom(acc, lines).Err? <==> exists i :: 0 <= i < |lines| && Malformed(lines[i])
    ensures ParseFrom(acc, lines).Err? ==> ParseFrom(acc, lines).error == ValueError
    decreases |lines|
  {
    if |lines| > 0 {
      var tail := lines[1..];
      assert forall i :: 0 < i < |lines| ==> lines[i] == tail[i - 1];
      if IsComment(lines[0]) || Entry(lines[0]).Some? {
        var acc' := if IsComment(lines[0]) then acc else Put(acc, Entry(lines[0]).value.0, Entry(lines[0]).value.1);
        ParseFromErr(acc', tail);
        if exists i :: 0 <= i < |lines| && Malformed(lines[i]) {
          var i :| 0 <= i < |lines| && Malformed(lines[i]);
          assert i > 0 && Malformed(tail[i - 1]);
        }
      }
    }
  }

  lemma ParseErr(lines: seq<string>)
    ensures Parse(lines).Err? <==> exists i :: 0 <= i < |lines| && Malformed(lines[i])
    ensures Parse(lines).Err? ==> Parse(lines).error == ValueError
  {
    ParseFromErr([], lines);
  }

  lemma {:induction false} ParseFromGet(acc: Dict, lines: seq<string>, k: string)
    requires ParseFrom(acc, lines).Ok?
    ensures Get(ParseFrom(acc, lines).value, k) == match LastValue(lines, k) case Some(v) => Some(v) case None => Get(acc, k)
    decreases |lines|
  {
    if |lines| > 0 {
      if IsComment(lines[0]) {
        ParseFromGet(acc, lines[1..], k);
      } else {
        var kv := Entry(lines[0]).value;
        ParseFromGet(Put(acc, kv.0, kv.1), lines[1..], k);
        PutGet(acc, kv.0, kv.1, k);
      }
    }
  }

  /** Lookup after parsing: a key has the value of the last line that sets it; comment lines and
      other keys do not matter. */
  lemma ParseGet(lines: seq<string>, k: string)
    requires Parse(lines).Ok?
    ensures Get(Parse(lines).value, k) == LastValue(lines, k)
  {
    ParseFromGet([], lines, k);
  }

  /** Lines Python reads hold a line break only as their last character. */
  lemma {:induction false} LinesBreakAtEnd(s: string)
    requires '\r' !in s
    ensures forall i :: 0 <= i < |Lines(s)| ==> '\r' !in Lines(s)[i] && '\n' !in Lines(s)[i][..|Lines(s)[i]| - 1]
    decreases |s|
  {
    if |s| > 0 {
      match IndexOf(s, '\n')
      case None =>
      case Some(i) =>
        assert '\r' !in s[i + 1..];
        LinesBreakAtEnd(s[i + 1..]);
        assert s[..i + 1][..i] == s[..i];
    }
  }

  /** A right-stripped line that held a line break only at its end holds none. */
  lemma RStripNoBreak(line: string)
    requires '\r' !in line
    requires |line| > 0 ==> '\n' !in line[..|line| - 1]
    ensures '\n' !in RStrip(line) && '\r' !in RStrip(line)
  {
    var r := RStrip(line);
    forall i | 0 <= i < |r| ensures r[i] != '\n' && r[i] != '\r' {
      assert r[i] == line[i];
      if i == |line| - 1 {
        assert IsSpace('\n');
      } else {
        assert line[..|line| - 1][i] == line[i];
      }
    }
  }

  lemma {:induction false} ParseFromClean(acc: Dict, lines: seq<string>)
    requires Clean(acc) && DistinctKeys(acc)
    requires forall i :: 0 <= i < |lines| ==> '\r' !in lines[i] && (|lines[i]| > 0 ==> '\n' !in lines[i][..|lines[i]| - 1])
    requires ParseFrom(acc, lines).Ok?
    ensures Clean(ParseFrom(acc, lines).value) && DistinctKeys(ParseFrom(acc, lines).value)
    decreases |lines|
  {
    if |lines| > 0 {
      if IsComment(lines[0]) {
        ParseFromClean(acc, lines[1..]);
      } else {
        var line := RStrip(lines[0]);
        var kv := Entry(lines[0]).value;
        RStripNoBreak(lines[0]);
        assert line == kv.0 + "=" + kv.1;
        assert CleanKey(kv.0);
        assert CleanValue(kv.1) by {
          if kv.1 != [] {
            assert kv.1[|kv.1| - 1] == line[|line| - 1];
          }
        }
        PutEntries(acc, kv.0, kv.1);
        PutDistinct(acc, kv.0, kv.1);
        ParseFromClean(Put(acc, kv.0, kv.1), lines[1..]);
      }
    }
  }

  /** `propertiesToDict` yields a dict whatever the lines are: its keys are distinct. */
  lemma {:induction false} ParseFromDistinct(acc: Dict, lines: seq<string>)
    requires DistinctKeys(acc)
    ensures ParseFrom(acc, lines).Ok? ==> DistinctKeys(ParseFrom(acc, lines).value)
    decreases |lines|
  {
    if |lines| > 0 {
      if IsComment(lines[0]) || Entry(lines[0]).None? {
        ParseFromDistinct(acc, lines[1..]);
      } else {
        var kv := Entry(lines[0]).value;
        PutDistinct(acc, kv.0, kv.1);
        ParseFromDistinct(Put(acc, kv.0, kv.1), lines[1..]);
      }
    }
  }

  /** Whatever a file parses to can be written back unchanged: keys and values are clean and the
      keys distinct. */
  lemma ParseContentClean(content: string)
    requires ParseContent(content).Ok?
    ensures Clean(ParseContent(content).value) && DistinctKeys(ParseContent(content).value)
  {
    var t := Translate(content);
    LinesBreakAtEnd(t);
    ParseFromClean([], Lines(t));
  }

  function EntryLines(d: Dict): seq<string> {
    seq(|d|, i requires 0 <= i < |d| => EntryText(d[i]) + "\n")
  }

  /** One written line reads back as the entry it was written from. */
  lemma EntryLineReads(k: string, v: string)
    requires CleanKey(k) && CleanValue(v)
    ensures !IsComment(EntryText((k, v)) + "\n")
    ensures Entry(EntryText((k, v)) + "\n") == Some((k, v))
  {
    var t := EntryText((k, v));
    var line := t + "\n";
    assert RStrip(line) == t by {
      assert IsSpace('\n');
      assert line[..|line| - 1] == t;
      assert t[|t| - 1] == if v == [] then '=' else v[|v| - 1];
    }
    if k == [] {
      assert t[0] == '=';
    } else {
      assert t[..1] == k[..1];
    }
    assert t == k + ['='] + v;
    IndexOfAppend(k, '=', v);
    assert t[..|k|] == k && t[|k| + 1..] == v;
  }

  lemma ParseFromEntry(acc: Dict, line: string, rest: seq<string>)
    requires !IsComment(line) && Entry(line).Some?
    ensures ParseFrom(acc, [line] + rest) == ParseFrom(Put(acc, Entry(line).value.0, Entry(line).value.1), rest)
  {
    assert ([line] + rest)[1..] == rest;
  }

  lemma SplitOffHead(a: Dict, b: Dict)
    requires |b| > 0
    ensures a + [b[0]] + b[1..] == a + b
  {
  }

  lemma {:induction false} ParseEntryLines(acc: Dict, d: Dict)
    requires Clean(d) && DistinctKeys(d)
    requires forall i :: 0 <= i < |d| ==> d[i].0 !in Keys(acc)
    ensures ParseFrom(acc, EntryLines(d)) == Ok(acc + d)
    decreases |d|
  {
    if |d| > 0 {
      var acc' := acc + [d[0]];
      FreshTail(acc, d);
      ParseEntryHead(acc, d);
      ParseEntryLines(acc', d[1..]);
      SplitOffHead(acc, d);
    } else {
      assert EntryLines(d) == [] && acc + d == acc;
    }
  }

  /** After the first entry is read, the others still meet the conditions of `ParseEntryLines`. */
  lemma FreshTail(acc: Dict, d: Dict)
    requires |d| > 0 && Clean(d) && DistinctKeys(d)
    requires forall i :: 0 <= i < |d| ==> d[i].0 !in Keys(acc)
    ensures Clean(d[1..]) && DistinctKeys(d[1..])
    ensures forall i :: 0 <= i < |d[1..]| ==> d[1..][i].0 !in Keys(acc + [d[0]])
    ensures CleanKey(d[0].0) && CleanValue(d[0].1) && d[0].0 !in Keys(acc)
  {
    assert d[0] in d;
    assert Keys(acc + [d[0]]) == Keys(acc) + [d[0].0];
    forall i | 0 <= i < |d[1..]| ensures d[1..][i].0 !in Keys(acc + [d[0]]) {
      assert d[1..][i] == d[i + 1];
    }
    assert forall e :: e in d[1..] ==> e in d;
  }

  /** Reading the first written line appends the first entry. */
  lemma ParseEntryHead(acc: Dict, d: Dict)
    requires |d| > 0 && CleanKey(d[0].0) && CleanValue(d[0].1) && d[0].0 !in Keys(acc)
    ensures ParseFrom(acc, EntryLines(d)) == ParseFrom(acc + [d[0]], EntryLines(d[1..]))
  {
    var k, v := d[0].0, d[0].1;
    EntryLineReads(k, v);
    PutAppend(acc, k, v);
    EntryLinesCons(d);
    ParseFromEntry(acc, EntryText(d[0]) + "\n", EntryLines(d[1..]));
  }

  lemma EntryLinesCons(d: Dict)
    requires |d| > 0
    ensures EntryLines(d) == [EntryText(d[0]) + "\n"] + EntryLines(d[1..])
  {
    var tail := EntryLines(d[1..]);
    forall i | 0 <= i < |tail| ensures tail[i] == EntryLines(d)[i + 1] {
      assert d[1..][i] == d[i + 1];
    }
  }

  lemma {:induction false} PutAppend(d: Dict, k: string, v: string)
    requires k !in Keys(d)
    ensures Put(d, k, v) == d + [(k, v)]
    decreases |d|
  {
    if |d| > 0 {
      assert Keys(d[1..]) == Keys(d)[1..];
      PutAppend(d[1..], k, v);
    }
  }

  lemma SerializeLines(d: Dict)
    requires |d| > 0 && Clean(d)
    ensures '\r' !in Serialize(d)
    ensures Lines(Serialize(d)) == EntryLines(d)
  {
    var xs := seq(|d|, i requires 0 <= i < |d| => EntryText(d[i]));
    forall i | 0 <= i < |xs| ensures '\n' !in xs[i] && '\r' !in xs[i] {
      assert d[i] in d;
    }
    LinesOfJoin(xs);
    NoCharInJoin(xs, '\r');
  }

  lemma {:induction false} NoCharInJoin(xs: seq<string>, c: char)
    requires c != '\n'
    requires forall i :: 0 <= i < |xs| ==> c !in xs[i]
    ensures c !in Join("\n", xs) + "\n"
    decreases |xs|
  {
    if |xs| > 1 {
      NoCharInJoin(xs[1..], c);
    }
  }

  /** Round trip: a non-empty dict of clean keys and values reads back exactly as it was written.
      (An empty dict writes a lone newline, which does not parse.) */
  lemma RoundTrip(d: Dict)
    requires |d| > 0 && Clean(d) && DistinctKeys(d)
    ensures ParseContent(Serialize(d)) == Ok(d)
  {
    SerializeLines(d);
    TranslateIdentity(Serialize(d));
    assert [] + d == d;
    ParseEntryLines([], d);
  }

  /** An empty dict is written as "\n", and "\n" does not parse. */
  lemma EmptyDictDoesNotRoundTrip()
    ensures Serialize([]) == "\n"
    ensures ParseContent("\n") == Err(ValueError)
  {
    assert Translate("\n") == "\n";
    LinesCons("", "");
    assert Lines("\n") == ["\n"];
    assert RStrip("\n") == "" by { assert IsSpace('\n'); }
    assert Malformed("\n");
  }

  /** After `setProperties`, the file reads as the old dict overridden by `props`: mentioned keys
      take the new value, the others keep theirs, old keys keep their order and new ones follow. */
  lemma RewriteMerge(content: string, props: Dict, after: string)
    requires DistinctKeys(props) && Clean(props)
    requires Rewrite(content, props) == Ok(after) && after != "\n"
    ensures ParseContent(after).Ok?
    ensures forall k :: Get(ParseContent(after).value, k) ==
              if k in Keys(props) then Get(props, k) else Get(ParseContent(content).value, k)
    ensures Keys(ParseContent(after).value) ==
              Keys(ParseContent(content).value) + NewKeys(Keys(ParseContent(content).value), props)
  {
    var d := ParseContent(content).value;
    var m := Update(d, props);
    ParseContentClean(content);
    UpdateClean(d, props);
    UpdateDistinct(d, props);
    assert m != [];
    RoundTrip(m);
    forall k ensures Get(m, k) == if k in Keys(props) then Get(props, k) else Get(d, k) {
      UpdateGet(d, props, k);
    }
    UpdateKeys(d, props);
  }

  /** Applying the same properties twice leaves the file the first application wrote. */
  lemma RewriteIdempotent(content: string, props: Dict, after: string)
    requires DistinctKeys(props) && Clean(props)
    requires Rewrite(content, props) == Ok(after) && after != "\n"
    ensures Rewrite(after, props) == Ok(after)
  {
    var d := ParseContent(content).value;
    var m := Update(d, props);
    ParseContentClean(content);
    UpdateClean(d, props);
    UpdateDistinct(d, props);
    assert m != [];
    RoundTrip(m);
    UpdateTwice(d, props);
  }

  /** Accepting a standard `eula=false` line leaves the comments before it and `eula=true`. */
  lemma AcceptFlipsFlag(lines: seq<string>, i: nat)
    requires i < |lines| && lines[i] == "eula=false\n"
    ensures AcceptedText(lines, i) == Concat(lines[..i]) + "eula=true\n"
  {
    var s := "eula=false\n";
    assert s[..10] == "eula=false";
    assert s[10..] == "\n";
  }
}
