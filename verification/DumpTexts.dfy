/** The dump file of RamCachedDB (sources/services/storage/ramcacheddb.go:339-385): one line per nonempty value. */
module DumpTexts {
  import opened DotPaths
  import opened Options

  type Entry = (Path, string)

  /** What dumpToStringLocked writes for one node. */
  function LineOf(e: Entry): string {
    FullName(e.0) + "=" + e.1
  }

  function TextOf(entries: seq<Entry>): string {
    if entries == [] then "" else LineOf(entries[0]) + "\n" + TextOf(entries[1..])
  }

  function SplitLines(text: string): seq<string> {
    SplitOn(text, '\n')
  }

  /** unicode.IsSpace. */
  predicate IsSpace(c: char) {
    c in "\t\n\r " || c as int in {0x0B, 0x0C, 0x85, 0xA0, 0x1680, 0x2028, 0x2029, 0x202F, 0x205F, 0x3000}
        || 0x2000 <= c as int <= 0x200A
  }

  /** What load makes of a line: nothing, or a key and a value. */
  /** unicode.IsSpace. */
  lemma SpacesAre(c: char)
    ensures IsSpace(c) <==>
              || c in "\t\n\U{B}\U{C}\r \U{85}\U{A0}\U{1680}\U{2028}\U{2029}\U{202F}\U{205F}\U{3000}"
              || c in "\U{2000}\U{2001}\U{2002}\U{2003}\U{2004}\U{2005}\U{2006}\U{2007}\U{2008}\U{2009}\U{200A}"
  {
  }

  datatype Parsed = Skip | Assign(key: string, value: string)

  /** A line of white space, or without "=", says nothing; else the first "=" ends the key. */
  function ParseLine(line: string): Parsed {
    if forall c :: c in line ==> IsSpace(c) then Skip
    else
      var idx := FirstOf(line, '=');
      if idx == |line| then Skip else Assign(line[..idx], line[idx + 1..])
  }

  /** A line whose key is not all white space is split at its first "="; a line without one is passed over, and so is a
      blank one. */
  lemma ParseLineIs(key: string, value: string, line: string)
    ensures '=' !in key ==> ParseLine(key + "=" + value) == Assign(key, value)
    ensures '=' !in line ==> ParseLine(line) == Skip
    ensures line != "" && line[0] == '=' ==> ParseLine(line) == Assign("", line[1..])
  {
    var l := key + ("=" + value);
    assert l == key + "=" + value && l[|key|] in l && !IsSpace('=');
    if '=' !in key {
      FirstOfIs(key, "=" + value, '=');
      assert l[..|key|] == key && l[|key| + 1..] == value;
    }
    assert line[..|line|] == line;
    if line != "" && line[0] == '=' { assert line[0] in line; }
  }

  function LoadLine(v: View, line: string): View {
    match ParseLine(line)
    case Skip => v
    case Assign(key, value) => SetAt(v, PathOf(key), value)
  }

  /** The database after all lines were read, in order. */
  function LoadAll(v: View, lines: seq<string>): View
    decreases |lines|
  {
    if lines == [] then v else LoadLine(LoadAll(v, lines[..|lines| - 1]), lines[|lines| - 1])
  }

  /** The last value that the lines give to a path, if any. */
  function LastGiven(lines: seq<string>, q: Path): Option<string>
    decreases |lines|
  {
    if lines == [] then None else
    match ParseLine(lines[|lines| - 1])
    case Assign(key, value) => if PathOf(key) == q then Some(value) else LastGiven(lines[..|lines| - 1], q)
    case Skip => LastGiven(lines[..|lines| - 1], q)
  }

  /** Some line names `q` or a path below it. */
  ghost predicate Mentioned(lines: seq<string>, q: Path) {
    exists i :: 0 <= i < |lines| && ParseLine(lines[i]).Assign? && q <= PathOf(ParseLine(lines[i]).key)
  }

  lemma MentionedSnoc(lines: seq<string>, q: Path)
    requires lines != []
    ensures var last := ParseLine(lines[|lines| - 1]);
            Mentioned(lines, q) <==> Mentioned(lines[..|lines| - 1], q) || (last.Assign? && q <= PathOf(last.key))
  {
    var n := |lines| - 1;
    if Mentioned(lines, q) {
      var i :| 0 <= i < |lines| && ParseLine(lines[i]).Assign? && q <= PathOf(ParseLine(lines[i]).key);
      if i < n { assert lines[..n][i] == lines[i]; }
    }
    if Mentioned(lines[..n], q) {
      var i :| 0 <= i < n && ParseLine(lines[..n][i]).Assign? && q <= PathOf(ParseLine(lines[..n][i]).key);
      assert lines[..n][i] == lines[i];
    }
  }

  /** A load in closed form: the nodes that are mentioned are added, and the last line on a path decides its value. */
  lemma {:induction false} LoadAllIs(v: View, lines: seq<string>)
    requires Closed(v)
    ensures var w := LoadAll(v, lines);
            && Closed(w)
            && (forall q :: q in w <==> q in v || Mentioned(lines, q))
            && (forall q :: q in w ==> w[q] == match LastGiven(lines, q) case Some(x) => x case None => if q in v
                then v[q] else "")
    decreases |lines|
  {
    if lines == [] {
      assert forall q :: !Mentioned(lines, q);
    } else {
      var rest := lines[..|lines| - 1];
      LoadAllIs(v, rest);
      var u := LoadAll(v, rest);
      match ParseLine(lines[|lines| - 1]) {
        case Skip =>
          forall q ensures Mentioned(lines, q) <==> Mentioned(rest, q) { MentionedSnoc(lines, q); }
        case Assign(key, value) =>
          var p, w := PathOf(key), LoadAll(v, lines);
          SetAtFacts(u, p, value);
          forall q ensures q in w <==> q in v || Mentioned(lines, q) {
            MentionedSnoc(lines, q);
            if q <= p { UpwardClosed(w, p, q); }
          }
          forall q | q in w ensures w[q] == match LastGiven(lines, q) case Some(x) => x case None => if q in v
              then v[q] else "" {
            if q != p && q !in u {
              LastGivenMentioned(rest, q);
            }
          }
      }
    }
  }

  lemma {:induction false} LastGivenMentioned(lines: seq<string>, q: Path)
    ensures LastGiven(lines, q).Some? ==> Mentioned(lines, q)
    decreases |lines|
  {
    if lines != [] {
      MentionedSnoc(lines, q);
      LastGivenMentioned(lines[..|lines| - 1], q);
    }
  }

  /** Loading the same text a second time changes nothing, whatever the text. */
  lemma LoadTwice(v: View, lines: seq<string>)
    requires Closed(v)
    ensures LoadAll(LoadAll(v, lines), lines) == LoadAll(v, lines)
  {
    LoadAllIs(v, lines);
    var w := LoadAll(v, lines);
    LoadAllIs(w, lines);
    var x := LoadAll(w, lines);
    assert x.Keys == w.Keys by { assert forall q :: q in x <==> q in w; }
  }

  // ----- Dump, then load -----

  /** Names that survive the text form. */
  predicate CleanSegment(s: string) {
    IsSegment(s) && '=' !in s && '\n' !in s
  }

  ghost predicate CleanPath(p: Path) {
    forall s :: s in p ==> CleanSegment(s)
  }

  ghost predicate Clean(v: View) {
    forall p :: p in v ==> CleanPath(p) && '\n' !in v[p]
  }

  /** No path occurs twice. */
  ghost predicate Once(entries: seq<Entry>) {
    forall i, j :: 0 <= i < j < |entries| ==> entries[i].0 != entries[j].0
  }

  /** The entries of a dump of everything below `p`: every nonempty value there once, and nothing else. */
  ghost predicate Dumps(v: View, p: Path, entries: seq<Entry>) {
    && Once(entries)
    && (forall e :: e in entries ==> e.0 in v && p <= e.0 && e.0 != p && e.1 == v[e.0] && e.1 != "")
    && (forall q :: q in v && p <= q && q != p && v[q] != "" ==> (q, v[q]) in entries)
  }

  lemma {:induction false} JoinClean(p: Path)
    requires p != [] && CleanPath(p)
    ensures '=' !in Join(p) && '\n' !in Join(p) && Join(p) != "" && PathOf(Join(p)) == p
  {
    PathOfJoin(p);
    assert p[0] in p;
    if |p| > 1 {
      assert forall s :: s in p[1..] ==> s in p;
      JoinClean(p[1..]);
    }
  }

  lemma NameClean(p: Path)
    requires p != [] && CleanPath(p)
    ensures '=' !in FullName(p) && '\n' !in FullName(p) && PathOf(FullName(p)) == p
  {
    hide PathOf, Join, FullName;
    forall s | s in p ensures s != "" { assert CleanSegment(s); }
    FullNameIsJoin(p);
    JoinClean(p);
  }

  /** The line of an entry is read back as that entry. */
  lemma ParseLineOf(e: Entry)
    requires e.0 != [] && CleanPath(e.0)
    ensures ParseLine(LineOf(e)) == Assign(FullName(e.0), e.1)
  {
    hide FullName;
    NameClean(e.0);
    var name := FullName(e.0);
    var line := name + ("=" + e.1);
    assert LineOf(e) == line;
    FirstOfIs(name, "=" + e.1, '=');
    assert line[|name|] == '=';
    assert '=' in line && !IsSpace('=');
    assert line[..|name|] == name && line[|name| + 1..] == e.1;
  }

  lemma TextAppend(entries: seq<Entry>, more: seq<Entry>)
    ensures TextOf(entries + more) == TextOf(entries) + TextOf(more)
    decreases |entries|
  {
    hide LineOf;
    if entries == [] {
      assert entries + more == more;
    } else {
      var line := LineOf(entries[0]) + "\n";
      TextAppend(entries[1..], more);
      assert (entries + more)[1..] == entries[1..] + more;
      assert line + (TextOf(entries[1..]) + TextOf(more)) == (line + TextOf(entries[1..])) + TextOf(more);
    }
  }

  function LinesOf(entries: seq<Entry>): (lines: seq<string>)
    ensures |lines| == |entries| && forall i :: 0 <= i < |entries| ==> lines[i] == LineOf(entries[i])
  {
    if entries == [] then [] else [LineOf(entries[0])] + LinesOf(entries[1..])
  }

  ghost predicate CleanEntries(entries: seq<Entry>) {
    forall e :: e in entries ==> e.0 != [] && CleanPath(e.0) && '\n' !in e.1
  }

  lemma SplitFirst(line: string, rest: string)
    requires '\n' !in line
    ensures SplitLines(line + "\n" + rest) == [line] + SplitLines(rest)
  {
    assert ['\n'] == "\n";
    SplitCons(line, rest, '\n');
  }

  lemma {:induction false} SplitText(entries: seq<Entry>)
    requires CleanEntries(entries)
    ensures SplitLines(TextOf(entries)) == LinesOf(entries) + [""]
  {
    hide SplitLines, CleanPath, PathOf, FullName;
    if entries == [] {
      SplitNothing();
    } else {
      var e := entries[0];
      assert e in entries;
      NameClean(e.0);
      assert '\n' !in LineOf(e);
      SplitFirst(LineOf(e), TextOf(entries[1..]));
      SplitText(entries[1..]);
    }
  }

  lemma SplitNothing()
    ensures SplitLines("") == [""]
  {
  }

  ghost predicate Loads(line: string, e: Entry) {
    var parsed := ParseLine(line);
    parsed.Assign? && PathOf(parsed.key) == e.0 && parsed.value == e.1
  }

  ghost predicate AllLoad(entries: seq<Entry>, lines: seq<string>) {
    && |lines| == |entries| + 1 && ParseLine(lines[|entries|]) == Skip
    && forall i :: 0 <= i < |entries| ==> Loads(lines[i], entries[i])
  }

  lemma TextLoads(entries: seq<Entry>)
    requires CleanEntries(entries)
    ensures AllLoad(entries, SplitLines(TextOf(entries)))
  {
    hide SplitLines, TextOf, ParseLine, LineOf, PathOf, CleanPath;
    SplitText(entries);
    SkipNothing();
    forall i | 0 <= i < |entries| ensures Loads(LineOf(entries[i]), entries[i]) {
      assert entries[i] in entries;
      ParseLineOf(entries[i]);
      NameClean(entries[i].0);
    }
  }

  lemma SkipNothing()
    ensures ParseLine("") == Skip
  {
  }

  /** Every line gives a path its value in `v`. */
  ghost predicate Truthful(lines: seq<string>, v: View) {
    forall i :: 0 <= i < |lines| && ParseLine(lines[i]).Assign? ==>
      var p := PathOf(ParseLine(lines[i]).key); p in v && v[p] == ParseLine(lines[i]).value
  }

  /** Some line names `q` itself. */
  ghost predicate Names(lines: seq<string>, q: Path) {
    exists i :: 0 <= i < |lines| && ParseLine(lines[i]).Assign? && PathOf(ParseLine(lines[i]).key) == q
  }

  /** When all lines agree with one map, the order of the lines does not matter. */
  lemma {:induction false} LastGivenTruth(lines: seq<string>, v: View, q: Path)
    requires Truthful(lines, v)
    ensures LastGiven(lines, q).Some? ==> q in v && LastGiven(lines, q).value == v[q]
    ensures Names(lines, q) ==> LastGiven(lines, q).Some?
    decreases |lines|
  {
    if lines != [] {
      var rest := lines[..|lines| - 1];
      assert forall i :: 0 <= i < |rest| ==> rest[i] == lines[i];
      LastGivenTruth(rest, v, q);
      if Names(lines, q) {
        var i :| 0 <= i < |lines| && ParseLine(lines[i]).Assign? && PathOf(ParseLine(lines[i]).key) == q;
        if i < |rest| { assert rest[i] == lines[i]; }
      }
    }
  }

  /** A dump of a whole database, in whatever order its nodes were visited, loads into an empty one
      as exactly the nonempty values. */
  lemma DumpLoads(v: View, entries: seq<Entry>)
    requires Closed(v) && Clean(v - {[]}) && v[[]] == "" && Dumps(v, [], entries)
    ensures var w := LoadAll(map[[] := ""], SplitLines(TextOf(entries)));
            && (forall q :: q in v && v[q] != "" ==> q in w && w[q] == v[q])
            && (forall q :: q in w && w[q] != "" ==> q in v && v[q] == w[q])
  {
    hide SplitLines, TextOf, CleanPath, LoadAll, LastGiven, ParseLine, PathOf;
    var lines, empty: View := SplitLines(TextOf(entries)), map[[] := ""];
    CleanDump(v, entries);
    TextLoads(entries);
    DumpTruth(v, entries, lines);
    LoadAllIs(empty, lines);
    var w := LoadAll(empty, lines);
    forall q | q in w && w[q] != "" ensures q in v && v[q] == w[q] {
      LastGivenTruth(lines, v, q);
    }
    forall q | q in v && v[q] != "" ensures q in w && w[q] == v[q] {
      LastGivenTruth(lines, v, q);
      LastGivenMentioned(lines, q);
    }
  }

  lemma CleanDump(v: View, entries: seq<Entry>)
    requires Clean(v - {[]}) && Dumps(v, [], entries)
    ensures CleanEntries(entries)
  {
    forall e | e in entries ensures e.0 != [] && CleanPath(e.0) && '\n' !in e.1 { assert e.0 in v - {[]}; }
  }

  lemma DumpTruth(v: View, entries: seq<Entry>, lines: seq<string>)
    requires Dumps(v, [], entries) && AllLoad(entries, lines) && [] in v && v[[]] == ""
    ensures Truthful(lines, v) && forall q :: q in v && v[q] != "" ==> Names(lines, q)
  {
    hide ParseLine, PathOf;
    forall i | 0 <= i < |entries| ensures entries[i].0 in v && v[entries[i].0] == entries[i].1
        && Loads(lines[i], entries[i]) {
      assert entries[i] in entries;
    }
    forall q | q in v && v[q] != "" ensures Names(lines, q) {
      assert (q, v[q]) in entries;
      var i :| 0 <= i < |entries| && entries[i] == (q, v[q]);
      assert Loads(lines[i], entries[i]);
    }
  }
}
