/** The `.env` editor of the helper CLI: `env get KEY` prints the value of a
    key, `env set KEY VALUE` rewrites or appends its line. The text of `.env`
    is a parameter (`None` when the file cannot be read) and the text written
    back is a result. */
module EnvFile {
  import opened Base
  import opened Text
  import opened Seqs

  /** The prefix of a line that holds `key`. */
  function KeyPrefix(key: string): string {
    key + "="
  }

  /** The line `env set` writes for `key`. */
  function Entry(key: string, value: string): string {
    key + "=" + value
  }

  predicate Holds(line: string, key: string) {
    StartsWith(line, KeyPrefix(key))
  }

  predicate HasKey(lines: seq<string>, key: string) {
    exists i :: 0 <= i < |lines| && Holds(lines[i], key)
  }

  /** A missing or unreadable `.env` reads as a file without lines. */
  function FileLines(file: Option<string>): seq<string> {
    if file.Some? then Lines(file.value) else []
  }

  /** What `env get` prints. */
  datatype Lookup = Found(value: string) | KeyNotFound {
    function Printed(): string {
      if Found? then value else "Key not found"
    }
  }

  // ---------------------------------------------------------------------
  // env get

  /** The position of the first line that holds `key` (`|lines|` if none). */
  function FirstIndex(lines: seq<string>, key: string): (k: nat)
    ensures k <= |lines|
    ensures forall j :: 0 <= j < k ==> !Holds(lines[j], key)
    ensures k < |lines| ==> Holds(lines[k], key)
  {
    if lines == [] then 0
    else if Holds(lines[0], key) then 0
    else 1 + FirstIndex(lines[1..], key)
  }

  /** The value `env get` finds: the text after `key=` on the first line
      that starts with it; later lines for the same key are ignored. */
  function FirstValue(lines: seq<string>, key: string): (r: Lookup)
    ensures r.KeyNotFound? <==> !HasKey(lines, key)
    ensures r.Found? ==> exists i :: 0 <= i < |lines| && lines[i] == Entry(key, r.value)
                            && forall j :: 0 <= j < i ==> !Holds(lines[j], key)
  {
    var k := FirstIndex(lines, key);
    if k == |lines| then KeyNotFound
    else
      assert lines[k] == Entry(key, lines[k][|KeyPrefix(key)|..]);
      Found(lines[k][|KeyPrefix(key)|..])
  }

  function GetSpec(file: Option<string>, key: string): Lookup {
    FirstValue(FileLines(file), key)
  }

  /** `env_get`: scan the lines, stop at the first one that holds the key. */
  method EnvGet(file: Option<string>, key: string) returns (r: Lookup)
    ensures r == GetSpec(file, key)
  {
    var lines := FileLines(file);
    var i := 0;
    while i < |lines|
      invariant 0 <= i <= |lines|
      invariant forall j :: 0 <= j < i ==> !Holds(lines[j], key)
    {
      if StartsWith(lines[i], KeyPrefix(key)) {
        FirstIndexAt(lines, key, i);
        return Found(lines[i][|KeyPrefix(key)|..]);
      }
      i := i + 1;
    }
    FirstIndexAt(lines, key, i);
    return KeyNotFound;
  }

  /** A scan that saw no key line before `i` and stops at `i` (a key line,
      or the end) stops at the first index. */
  lemma FirstIndexAt(lines: seq<string>, key: string, i: int)
    requires 0 <= i <= |lines|
    requires forall j :: 0 <= j < i ==> !Holds(lines[j], key)
    requires i < |lines| ==> Holds(lines[i], key)
    ensures FirstIndex(lines, key) == i
  {
    var k := FirstIndex(lines, key);
    if i < |lines| {
      assert Holds(lines[i], key);
    }
    if k < |lines| {
      assert Holds(lines[k], key);
    }
  }

  // ---------------------------------------------------------------------
  // env set

  function SetLine(line: string, key: string, value: string): string {
    if Holds(line, key) then Entry(key, value) else line
  }

  /** Every line that holds `key` rewritten, the others as they were. */
  function Rewrite(lines: seq<string>, key: string, value: string): seq<string> {
    if lines == [] then []
    else Rewrite(lines[..|lines| - 1], key, value) + [SetLine(lines[|lines| - 1], key, value)]
  }

  /** The lines `env set` writes: the rewritten lines, and one `key=value`
      line appended when no line held the key. */
  function SetLines(lines: seq<string>, key: string, value: string): seq<string> {
    Rewrite(lines, key, value) + (if HasKey(lines, key) then [] else [Entry(key, value)])
  }

  /** The text `env set` writes: the lines joined by '\n' (no final newline). */
  function SetSpec(file: Option<string>, key: string, value: string): string {
    Join(SetLines(FileLines(file), key, value), '\n')
  }

  /** `env_set`: the pass over the lines, the append when no line held
      the key, and the join. */
  method EnvSet(file: Option<string>, key: string, value: string) returns (written: string)
    ensures written == SetSpec(file, key, value)
  {
    var lines := FileLines(file);
    var out, found := PushLines(lines, key, value);
    if !found {
      out := out + [Entry(key, value)];
    } else {
      assert out + [] == out;
    }
    written := Join(out, '\n');
  }

  /** The loop of `env_set`: push each line or its replacement, and flip
      `found` at the first line that holds the key. */
  method PushLines(lines: seq<string>, key: string, value: string) returns (out: seq<string>, found: bool)
    ensures out == Rewrite(lines, key, value)
    ensures found == HasKey(lines, key)
  {
    out, found := [], false;
    var i := 0;
    while i < |lines|
      invariant 0 <= i <= |lines|
      invariant out == Rewrite(lines[..i], key, value)
      invariant found == HasKey(lines[..i], key)
    {
      assert lines[..i + 1] == lines[..i] + [lines[i]];
      HasKeySnoc(lines[..i], lines[i], key);
      RewriteSnoc(lines[..i], lines[i], key, value);
      if StartsWith(lines[i], KeyPrefix(key)) {
        out := out + [Entry(key, value)];
        found := true;
      } else {
        out := out + [lines[i]];
      }
      i := i + 1;
    }
    assert lines[..i] == lines;
  }

  lemma HasKeySnoc(lines: seq<string>, line: string, key: string)
    ensures HasKey(lines + [line], key) <==> HasKey(lines, key) || Holds(line, key)
  {
    var all := lines + [line];
    if Holds(line, key) {
      assert all[|lines|] == line;
    }
    if HasKey(lines, key) {
      var j :| 0 <= j < |lines| && Holds(lines[j], key);
      assert all[j] == lines[j];
    }
  }

  lemma RewriteSnoc(lines: seq<string>, line: string, key: string, value: string)
    ensures Rewrite(lines + [line], key, value) == Rewrite(lines, key, value) + [SetLine(line, key, value)]
  {
    var all := lines + [line];
    assert all[..|all| - 1] == lines && all[|all| - 1] == line;
  }

  // ---------------------------------------------------------------------
  // properties of env set

  lemma {:induction false} RewriteAt(lines: seq<string>, key: string, value: string)
    ensures |Rewrite(lines, key, value)| == |lines|
    ensures forall i :: 0 <= i < |lines| ==> Rewrite(lines, key, value)[i] == SetLine(lines[i], key, value)
  {
    if lines != [] {
      RewriteAt(lines[..|lines| - 1], key, value);
    }
  }

  /** Every line holding the key becomes `key=value` (not only the first),
      every other line stays where it was, and exactly one `key=value` line
      is appended when none held the key. */
  lemma SetLinesShape(lines: seq<string>, key: string, value: string)
    ensures var r := SetLines(lines, key, value);
      && |r| == |lines| + (if HasKey(lines, key) then 0 else 1)
      && (forall i :: 0 <= i < |lines| && Holds(lines[i], key) ==> r[i] == Entry(key, value))
      && (forall i :: 0 <= i < |lines| && !Holds(lines[i], key) ==> r[i] == lines[i])
      && (!HasKey(lines, key) ==> r[|lines|] == Entry(key, value))
  {
    RewriteAt(lines, key, value);
  }

  /** The lines without the key survive verbatim and in their original order. */
  lemma {:induction false} SetKeepsOtherLines(lines: seq<string>, key: string, value: string)
    ensures Filter(SetLines(lines, key, value), l => !Holds(l, key)) == Filter(lines, l => !Holds(l, key))
  {
    var other := (l: string) => !Holds(l, key);
    RewriteKeepsOtherLines(lines, key, value);
    FilterAppend(Rewrite(lines, key, value), if HasKey(lines, key) then [] else [Entry(key, value)], other);
    assert Holds(Entry(key, value), key);
    assert Filter([Entry(key, value)], other) == [];
    assert Rewrite(lines, key, value) + [] == Rewrite(lines, key, value);
  }

  lemma {:induction false} RewriteKeepsOtherLines(lines: seq<string>, key: string, value: string)
    ensures Filter(Rewrite(lines, key, value), l => !Holds(l, key)) == Filter(lines, l => !Holds(l, key))
  {
    var other := (l: string) => !Holds(l, key);
    if lines != [] {
      var init, last := lines[..|lines| - 1], lines[|lines| - 1];
      RewriteKeepsOtherLines(init, key, value);
      FilterAppend(Rewrite(init, key, value), [SetLine(last, key, value)], other);
      FilterAppend(init, [last], other);
      assert init + [last] == lines;
      assert Holds(Entry(key, value), key);
      assert Filter([SetLine(last, key, value)], other) == Filter([last], other);
    }
  }

  /** Every line of the result that holds the key is `key=value`, and there is one. */
  lemma SetLinesKeyLines(lines: seq<string>, key: string, value: string)
    ensures var r := SetLines(lines, key, value);
      HasKey(r, key) && forall i :: 0 <= i < |r| && Holds(r[i], key) ==> r[i] == Entry(key, value)
  {
    SetLinesShape(lines, key, value);
    var r := SetLines(lines, key, value);
    assert Holds(Entry(key, value), key);
    if HasKey(lines, key) {
      var j :| 0 <= j < |lines| && Holds(lines[j], key);
      assert Holds(r[j], key);
    } else {
      assert Holds(r[|lines|], key);
    }
  }

  // ---------------------------------------------------------------------
  // reading back what was written

  /** Dropping a trailing '\r' does not change whether a line holds a key. */
  lemma HoldsStripCr(line: string, key: string)
    ensures Holds(StripCr(line), key) <==> Holds(line, key)
  {
    var p := KeyPrefix(key);
    if Holds(line, key) && StripCr(line) != line {
      assert line[|p| - 1] == '=';
      assert StripCr(line)[..|p|] == line[..|p|];
    }
  }

  predicate EntryOk(key: string, value: string) {
    '\n' !in key && '\n' !in value && (value == [] || value[|value| - 1] != '\r')
  }

  predicate NoNewlines(lines: seq<string>) {
    forall i :: 0 <= i < |lines| ==> '\n' !in lines[i]
  }

  lemma EntryNoNewline(key: string, value: string)
    requires EntryOk(key, value)
    ensures '\n' !in Entry(key, value) && StripCr(Entry(key, value)) == Entry(key, value)
  {
    var e := Entry(key, value);
    assert e == key + ['='] + value;
    if value == [] {
      assert e[|e| - 1] == '=';
    } else {
      assert e[|e| - 1] == value[|value| - 1];
    }
  }

  lemma SetLinesNoNewlines(lines: seq<string>, key: string, value: string)
    requires NoNewlines(lines) && EntryOk(key, value)
    ensures NoNewlines(SetLines(lines, key, value))
  {
    SetLinesShape(lines, key, value);
    EntryNoNewline(key, value);
  }

  /** After `env set KEY VALUE`, `env get KEY` finds VALUE, whatever the file
      held before, provided neither holds a line break and VALUE does not end
      in a carriage return. */
  lemma EnvRoundTrip(file: Option<string>, key: string, value: string)
    requires EntryOk(key, value)
    ensures GetSpec(Some(SetSpec(file, key, value)), key) == Found(value)
  {
    var lines := FileLines(file);
    var r := SetLines(lines, key, value);
    SetLinesNoNewlines(lines, key, value);
    SetLinesKeyLines(lines, key, value);
    SetLinesShape(lines, key, value);
    LinesOfJoin(r);
    LinesOfKeyLines(r, key, value);
    OnlyEntryFound(LinesOf(r), key, value);
  }

  /** Reading joined lines back keeps a key's lines when they are all
      `key=value` with a valid entry. */
  lemma LinesOfKeyLines(r: seq<string>, key: string, value: string)
    requires |r| >= 1 && NoNewlines(r) && EntryOk(key, value)
    requires HasKey(r, key) && forall i :: 0 <= i < |r| && Holds(r[i], key) ==> r[i] == Entry(key, value)
    ensures HasKey(LinesOf(r), key)
    ensures forall i :: 0 <= i < |LinesOf(r)| && Holds(LinesOf(r)[i], key) ==> LinesOf(r)[i] == Entry(key, value)
  {
    EntryNoNewline(key, value);
    var m := LinesOf(r);
    var n := |r|;
    assert m == StripAll(r[..n - 1]) + (if r[n - 1] == [] then [] else [r[n - 1]]);
    forall i | 0 <= i < |m| && Holds(m[i], key)
      ensures m[i] == Entry(key, value)
    {
      if i < n - 1 {
        HoldsStripCr(r[i], key);
      }
    }
    var j :| 0 <= j < n && Holds(r[j], key);
    if j < n - 1 {
      HoldsStripCr(r[j], key);
      assert Holds(m[j], key);
    } else {
      assert m[n - 1] == r[n - 1];
      assert Holds(m[n - 1], key);
    }
  }

  /** When every line holding the key is `key=value`, the lookup finds `value`. */
  lemma OnlyEntryFound(m: seq<string>, key: string, value: string)
    requires HasKey(m, key) && forall i :: 0 <= i < |m| && Holds(m[i], key) ==> m[i] == Entry(key, value)
    ensures FirstValue(m, key) == Found(value)
  {
    var v := FirstValue(m, key).value;
    var i :| 0 <= i < |m| && m[i] == Entry(key, v);
    assert Holds(Entry(key, v), key);
    assert Entry(key, v)[|key| + 1..] == v;
    assert Entry(key, value)[|key| + 1..] == value;
  }

  /** A line list that `lines()` reads back unchanged from its '\n'-join: no
      line ends in '\r' and the last line is not empty. */
  predicate Canonical(lines: seq<string>) {
    && (forall i :: 0 <= i < |lines| ==> StripCr(lines[i]) == lines[i])
    && (lines == [] || lines[|lines| - 1] != [])
  }

  lemma LinesOfCanonical(lines: seq<string>)
    requires |lines| >= 1 && NoNewlines(lines) && Canonical(lines)
    ensures Lines(Join(lines, '\n')) == lines
  {
    LinesOfJoin(lines);
    LinesOfCanonicalPieces(lines);
  }

  lemma LinesOfCanonicalPieces(lines: seq<string>)
    requires |lines| >= 1 && NoNewlines(lines) && Canonical(lines)
    ensures LinesOf(lines) == lines
  {
    var n := |lines|;
    var init := lines[..n - 1];
    var stripped := StripAll(init);
    assert stripped == init;
    assert LinesOf(lines) == stripped + [lines[n - 1]];
    assert init + [lines[n - 1]] == lines;
  }

  lemma SetLinesCanonical(lines: seq<string>, key: string, value: string)
    requires NoNewlines(lines) && Canonical(lines) && EntryOk(key, value)
    ensures Canonical(SetLines(lines, key, value))
  {
    SetLinesShape(lines, key, value);
    EntryNoNewline(key, value);
    var r := SetLines(lines, key, value);
    var n := |r|;
    assert r[n - 1] == Entry(key, value) || r[n - 1] == lines[|lines| - 1];
  }

  /** On a file whose lines are canonical, setting the same key to the same
      value a second time writes the same text as the first time. */
  lemma EnvSetIdempotent(file: Option<string>, key: string, value: string)
    requires EntryOk(key, value) && Canonical(FileLines(file))
    ensures SetSpec(Some(SetSpec(file, key, value)), key, value) == SetSpec(file, key, value)
  {
    var lines := FileLines(file);
    var r := SetLines(lines, key, value);
    SetLinesNoNewlines(lines, key, value);
    SetLinesCanonical(lines, key, value);
    LinesOfCanonical(r);
    assert FileLines(Some(Join(r, '\n'))) == r;
    SetLinesFixedPoint(lines, key, value);
  }

  /** The lines `env set` writes are left as they are by the same `env set`. */
  lemma SetLinesFixedPoint(lines: seq<string>, key: string, value: string)
    ensures var r := SetLines(lines, key, value); SetLines(r, key, value) == r
  {
    var r := SetLines(lines, key, value);
    SetLinesKeyLines(lines, key, value);
    RewriteAt(r, key, value);
    var rr := Rewrite(r, key, value);
    assert forall i | 0 <= i < |r| :: rr[i] == r[i];
    assert rr == r;
  }

  /** Without the canonical-lines condition a second `env set` can differ:
      a file ending in a blank line loses that blank line on each write. */
  lemma EnvSetNotIdempotentOnTrailingBlankLine()
    ensures SetSpec(Some("K=x\n\n"), "K", "v") == "K=v\n"
    ensures SetSpec(Some("K=v\n"), "K", "v") == "K=v"
  {
    var e: string := [];
    LinesOfTrailingBlank();
    assert Holds("K=x", "K");
    RewriteAt(["K=x", e], "K", "v");
    assert HasKey(["K=x", e], "K") by {
      assert ["K=x", e][0] == "K=x";
    }
    assert Entry("K", "v") == "K=v";
    assert Rewrite(["K=x", e], "K", "v") == ["K=v", e];
    assert SetLines(["K=x", e], "K", "v") == ["K=v", e];
    assert Join(["K=v", e], '\n') == "K=v\n";
    LinesOfSingleNewline();
    assert Holds("K=v", "K");
    RewriteAt(["K=v"], "K", "v");
    assert HasKey(["K=v"], "K") by {
      assert ["K=v"][0] == "K=v";
    }
    assert Rewrite(["K=v"], "K", "v") == ["K=v"];
    assert SetLines(["K=v"], "K", "v") == ["K=v"];
  }

  /** A last line that still ends in '\r' after `lines()` keeps it on the
      first write, where it becomes an inner line, and loses it on the
      second: the file changes again, and so does the lookup of the key on
      that line. */
  lemma EnvSetStripsInnerCarriageReturn()
    ensures GetSpec(Some("O=1\r"), "O") == Found("1\r")
    ensures SetSpec(Some("O=1\r"), "K", "v") == "O=1\r\nK=v"
    ensures GetSpec(Some("O=1\r\nK=v"), "O") == Found("1")
    ensures SetSpec(Some("O=1\r\nK=v"), "K", "v") == "O=1\nK=v"
  {
    LinesOfCrLast();
    LinesOfCrInner();
    FirstSetWithCr();
    SecondSetWithCr();
  }

  lemma LinesOfCrLast()
    ensures FileLines(Some("O=1\r")) == ["O=1\r"]
  {
    var a: string := "O=1\r";
    SplitJoin([a], '\n');
    assert Join([a], '\n') == a;
  }

  lemma LinesOfCrInner()
    ensures FileLines(Some("O=1\r\nK=v")) == ["O=1", "K=v"]
  {
    var a: string := "O=1\r";
    var b: string := "K=v";
    var ab := [a, b];
    assert ab[1..] == [b];
    assert Join(ab, '\n') == a + ['\n'] + b == "O=1\r\nK=v";
    assert '\n' !in a && '\n' !in b;
    SplitJoin(ab, '\n');
    assert Lines("O=1\r\nK=v") == LinesOf(ab);
    assert ab[..1] == [a];
    assert StripAll([a]) == [StripCr(a)];
    assert StripCr(a) == "O=1";
  }

  lemma FirstSetWithCr()
    ensures FirstValue(["O=1\r"], "O") == Found("1\r")
    ensures Join(SetLines(["O=1\r"], "K", "v"), '\n') == "O=1\r\nK=v"
  {
    var a: string := "O=1\r";
    assert Holds(a, "O") && a[2..] == "1\r";
    assert FirstIndex([a], "O") == 0;
    assert !Holds(a, "K") by {
      assert a[0] != KeyPrefix("K")[0];
    }
    assert Rewrite([a], "K", "v") == [a];
    assert !HasKey([a], "K");
    assert SetLines([a], "K", "v") == [a, Entry("K", "v")];
    assert Entry("K", "v") == "K=v";
  }

  lemma SecondSetWithCr()
    ensures FirstValue(["O=1", "K=v"], "O") == Found("1")
    ensures Join(SetLines(["O=1", "K=v"], "K", "v"), '\n') == "O=1\nK=v"
  {
    var c: string := "O=1";
    var b: string := "K=v";
    var cb := [c, b];
    assert Holds(c, "O") && c[2..] == "1";
    assert FirstIndex(cb, "O") == 0;
    SetLinesKeepsEntryLine(c, b);
    assert cb[1..] == [b];
    assert Join(cb, '\n') == c + ['\n'] + b;
  }

  lemma SetLinesKeepsEntryLine(c: string, b: string)
    requires c == "O=1" && b == "K=v"
    ensures SetLines([c, b], "K", "v") == [c, b]
  {
    var cb := [c, b];
    assert !Holds(c, "K") by {
      assert c[0] != KeyPrefix("K")[0];
    }
    assert Holds(b, "K");
    assert Entry("K", "v") == b;
    assert cb[..1] == [c];
    assert Rewrite([c], "K", "v") == [c];
    assert Rewrite(cb, "K", "v") == [c, b];
    assert HasKey(cb, "K") by {
      assert cb[1] == b;
    }
  }

  lemma SplitNewlines()
    ensures Split("\n", '\n') == ["", ""]
    ensures Split("\n\n", '\n') == ["", "", ""]
  {
    var e: string := [];
    assert Split("", '\n') == [e];
    assert "\n"[1..] == "";
    assert Split("\n", '\n') == [e, e];
    assert "\n\n"[1..] == "\n";
  }

  lemma LinesOfTrailingBlank()
    ensures FileLines(Some("K=x\n\n")) == ["K=x", ""]
  {
    var e: string := [];
    SplitNewlines();
    var s2 := Split("\n\n", '\n');
    SplitPrefix("K=x", "\n\n", '\n');
    assert "K=x" + "\n\n" == "K=x\n\n";
    assert "K=x" + s2[0] == "K=x" && s2[1..] == [e, e];
    assert Split("K=x\n\n", '\n') == ["K=x", e, e];
    assert StripCr("K=x") == "K=x";
    assert FileLines(Some("K=x\n\n")) == StripAll(["K=x", e]);
  }

  lemma LinesOfSingleNewline()
    ensures FileLines(Some("K=v\n")) == ["K=v"]
  {
    var e: string := [];
    SplitNewlines();
    var s1 := Split("\n", '\n');
    SplitPrefix("K=v", "\n", '\n');
    assert "K=v" + "\n" == "K=v\n";
    assert "K=v" + s1[0] == "K=v" && s1[1..] == [e];
    assert Split("K=v\n", '\n') == ["K=v", e];
    assert StripCr("K=v") == "K=v";
    assert FileLines(Some("K=v\n")) == StripAll(["K=v"]);
  }

  /** A line for one '='-free key never holds another: `A` does not match `AB=...`. */
  lemma DistinctKeysDistinctLines(k1: string, k2: string, line: string)
    requires '=' !in k1 && '=' !in k2 && k1 != k2
    requires Holds(line, k2)
    ensures !Holds(line, k1)
  {
    if |k1| < |k2| {
      assert line[|k1|] == k2[|k1|] && k2[|k1|] != '=';
    } else if |k2| < |k1| {
      assert line[|k2|] == '=' && k1[|k2|] != '=';
    } else {
      assert line[..|k1|] == k2 && k2 != k1;
    }
  }

  /** Setting one key leaves what `env get` finds for every other key as it
      was (on a canonical file, with '='-free keys). */
  lemma EnvSetOtherKeyUnchanged(file: Option<string>, key: string, value: string, other: string)
    requires EntryOk(key, value) && Canonical(FileLines(file))
    requires '=' !in key && '=' !in other && key != other
    ensures GetSpec(Some(SetSpec(file, key, value)), other) == GetSpec(file, other)
  {
    var lines := FileLines(file);
    var r := SetLines(lines, key, value);
    SetLinesNoNewlines(lines, key, value);
    SetLinesCanonical(lines, key, value);
    SetLinesShape(lines, key, value);
    LinesOfCanonical(r);
    assert FileLines(Some(Join(r, '\n'))) == r;
    SetLinesOtherKeyLines(lines, key, value, other);
    SameKeyLinesSameValue(lines, r, other);
  }

  /** After a set, a line holds another key exactly when the line it came
      from did, and then it is unchanged. */
  lemma SetLinesOtherKeyLines(lines: seq<string>, key: string, value: string, other: string)
    requires '=' !in key && '=' !in other && key != other
    ensures var r := SetLines(lines, key, value);
            && |lines| <= |r|
            && (forall i :: 0 <= i < |r| ==> (Holds(r[i], other) <==> i < |lines| && Holds(lines[i], other)))
            && (forall i :: 0 <= i < |lines| && Holds(lines[i], other) ==> r[i] == lines[i])
  {
    var r := SetLines(lines, key, value);
    SetLinesShape(lines, key, value);
    assert Holds(Entry(key, value), key);
    forall i | 0 <= i < |r|
      ensures Holds(r[i], other) <==> i < |lines| && Holds(lines[i], other)
      ensures i < |lines| && Holds(lines[i], other) ==> r[i] == lines[i]
    {
      if i < |lines| && Holds(lines[i], other) {
        DistinctKeysDistinctLines(key, other, lines[i]);
      }
      if Holds(r[i], other) && (i == |lines| || Holds(lines[i], key)) {
        DistinctKeysDistinctLines(other, key, r[i]);
      }
    }
  }

  /** Two line lists whose lines for `key` sit at the same places with the
      same text give the same lookup. */
  lemma SameKeyLinesSameValue(a: seq<string>, b: seq<string>, key: string)
    requires |a| <= |b|
    requires forall i :: 0 <= i < |b| ==> (Holds(b[i], key) <==> i < |a| && Holds(a[i], key))
    requires forall i :: 0 <= i < |a| && Holds(a[i], key) ==> b[i] == a[i]
    ensures FirstValue(b, key) == FirstValue(a, key)
  {
    var k := FirstIndex(a, key);
    if k < |a| {
      assert Holds(b[k], key) && b[k] == a[k];
      FirstIndexAt(b, key, k);
    } else {
      FirstIndexAt(b, key, |b|);
    }
  }
}
