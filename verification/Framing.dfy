/** Messages as lines over a stream that arrives in arbitrary pieces
    (sources/services/apis/vstp/vstp.go:134-163, 233-243, 474-498;
    sources/misc/goVssClient/vsscli/vsscli.go:190-214, 574-576). */
module Framing {
  import opened DotPaths

  datatype Message = Message(cmd: string, payload: string)

  /** Everything before the last newline, line by line. */
  function Complete(text: string): seq<string> {
    var parts := SplitOn(text, '\n');
    parts[..|parts| - 1]
  }

  /** What follows the last newline. */
  function Remainder(text: string): string {
    var parts := SplitOn(text, '\n');
    parts[|parts| - 1]
  }

  lemma FirstOfEnds(s: string, c: char)
    ensures FirstOf(s, c) == |s| <==> c !in s
  {
    var i := FirstOf(s, c);
    if i < |s| {
      assert s[i] in s;
    } else {
      assert s[..i] == s;
    }
  }

  lemma SplitNone(s: string, c: char)
    requires c !in s
    ensures SplitOn(s, c) == [s]
  {
    FirstOfEnds(s, c);
  }

  lemma CutAt(s: string, c: char) returns (head: string, tail: string)
    requires c in s
    ensures s == head + [c] + tail && c !in head && |tail| < |s|
  {
    FirstOfEnds(s, c);
    var i := FirstOf(s, c);
    head, tail := s[..i], s[i + 1..];
    assert s == s[..i] + [s[i]] + s[i + 1..];
  }

  lemma {:induction false} SplitAppend(s: string, t: string, c: char)
    ensures var a, b := SplitOn(s, c), SplitOn(s + t, c);
            b == a[..|a| - 1] + SplitOn(a[|a| - 1] + t, c)
    decreases |s|
  {
    hide SplitOn, FirstOf;
    var a := SplitOn(s, c);
    if c !in s {
      SplitNone(s, c);
      assert a[..0] == [];
    } else {
      var head, tail := CutAt(s, c);
      SplitCons(head, tail, c);
      SplitCons(head, tail + t, c);
      assert s + t == head + [c] + (tail + t);
      SplitAppend(tail, t, c);
      var rest := SplitOn(tail, c);
      assert a == [head] + rest;
      assert a[..|rest|] == [head] + rest[..|rest| - 1];
    }
  }

  /** Cutting off the first line of what is left. */
  lemma CutFirst(buf: string, c: char)
    requires FirstOf(buf, c) < |buf|
    ensures var i := FirstOf(buf, c); SplitOn(buf, c) == [buf[..i]] + SplitOn(buf[i + 1..], c)
  {
  }

  /** strings.Cut at the first colon; a line without one is dropped. */
  function Parsed(line: string): seq<Message> {
    var i := FirstOf(line, ':');
    if i == |line| then [] else [Message(line[..i], line[i + 1..])]
  }

  function ParsedAll(lines: seq<string>): seq<Message>
    decreases |lines|
  {
    if lines == [] then [] else ParsedAll(lines[..|lines| - 1]) + Parsed(lines[|lines| - 1])
  }

  lemma NothingParsed()
    ensures ParsedAll([]) == []
  {
  }

  lemma ParsedSnoc(lines: seq<string>, line: string)
    ensures ParsedAll(lines + [line]) == ParsedAll(lines) + Parsed(line)
  {
    assert (lines + [line])[..|lines|] == lines;
  }

  lemma ParsedNone(line: string)
    requires ':' !in line
    ensures Parsed(line) == []
  {
    FirstOfEnds(line, ':');
  }

  lemma ParsedOne(cmd: string, payload: string)
    requires ':' !in cmd
    ensures Parsed(cmd + ":" + payload) == [Message(cmd, payload)]
  {
    var line := cmd + (":" + payload);
    assert cmd + ":" + payload == line;
    FirstOfIs(cmd, ":" + payload, ':');
    assert line[..|cmd|] == cmd && line[|cmd| + 1..] == payload;
  }

  class VssCli {
    var sbuffer: string
    var received: seq<Message>
    ghost var history: string

    /** What was received is what the stream says so far, and the buffer is the line that has only begun. */
    ghost predicate Valid()
      reads this
    {
      sbuffer == Remainder(history) && received == ParsedAll(Complete(history))
    }

    constructor ()
      ensures Valid() && history == "" && received == []
    {
      sbuffer, received, history := "", [], "";
    }

    /** A line is a command and a payload around its first colon; without one it is dropped. */
    method ProcessReceivedPack(pack: string)
      modifies `received
      ensures ':' !in pack ==> received == old(received)
      ensures forall cmd, payload {:trigger cmd + ":" + payload} ::
                ':' !in cmd && pack == cmd + ":" + payload ==> received == old(received) + [Message(cmd, payload)]
      ensures received == old(received) + Parsed(pack)
    {
      if ':' !in pack { ParsedNone(pack); }
      forall cmd, payload | ':' !in cmd && pack == cmd + ":" + payload ensures Parsed(pack) == [Message(cmd, payload)] {
        ParsedOne(cmd, payload);
      }
      var i := FirstOf(pack, ':');
      if i == |pack| {
        return;
      }
      received := received + [Message(pack[..i], pack[i + 1..])];
    }

    method HandleNewData(data: string)
      requires Valid()
      modifies this
      ensures Valid() && history == old(history) + data
    {
      hide Complete, Remainder, SplitOn, ParsedAll, Parsed;
      ghost var taken := Complete(history);
      SplitParts(history);
      SplitAppend(history, data, '\n');
      sbuffer := sbuffer + data;
      history := history + data;
      var pos := FirstOf(sbuffer, '\n');
      while pos < |sbuffer|
        invariant pos == FirstOf(sbuffer, '\n') && history == old(history) + data
        invariant SplitOn(history, '\n') == taken + SplitOn(sbuffer, '\n') && received == ParsedAll(taken)
        decreases |sbuffer|
      {
        CutFirst(sbuffer, '\n');
        var pack := sbuffer[..pos];
        ParsedSnoc(taken, pack);
        taken := taken + [pack];
        sbuffer := sbuffer[pos + 1..];
        pos := FirstOf(sbuffer, '\n');
        ProcessReceivedPack(pack);
      }
      LastLine(sbuffer);
      SplitParts(history);
      SnocParts(taken, sbuffer, Complete(history), Remainder(history));
    }
  }

  lemma SnocParts(a: seq<string>, x: string, b: seq<string>, y: string)
    requires a + [x] == b + [y]
    ensures a == b && x == y
  {
    assert (a + [x])[|a|] == x && (b + [y])[|b|] == y;
    assert (a + [x])[..|a|] == a && (b + [y])[..|b|] == b;
  }

  lemma SplitParts(text: string)
    ensures SplitOn(text, '\n') == Complete(text) + [Remainder(text)]
  {
  }

  lemma LastLine(buf: string)
    requires FirstOf(buf, '\n') == |buf|
    ensures SplitOn(buf, '\n') == [buf]
  {
  }

  // ----- The sender -----

  /** protocolWrite; packFromCmdAndPayload is the case without an id. */
  function Written(cmd: string, id: string, data: string): string {
    (if id != "" then cmd + "(" + id + ")" else cmd) + ":" + data + "\n"
  }

  datatype Sent = Sent(cmd: string, id: string, data: string) {
    function Action(): string {
      if id != "" then cmd + "(" + id + ")" else cmd
    }

    predicate Clean() {
      '\n' !in cmd && '\n' !in id && '\n' !in data && ':' !in cmd && ':' !in id
    }
  }

  function Stream(sent: seq<Sent>): string {
    if sent == [] then "" else Written(sent[0].cmd, sent[0].id, sent[0].data) + Stream(sent[1..])
  }

  function Messages(sent: seq<Sent>): seq<Message> {
    seq(|sent|, i requires 0 <= i < |sent| => Message(sent[i].Action(), sent[i].data))
  }

  function LinesOf(sent: seq<Sent>): seq<string> {
    seq(|sent|, i requires 0 <= i < |sent| => sent[i].Action() + ":" + sent[i].data)
  }

  lemma CleanLine(m: Sent)
    requires m.Clean()
    ensures '\n' !in m.Action() + ":" + m.data && ':' !in m.Action()
    ensures Parsed(m.Action() + ":" + m.data) == [Message(m.Action(), m.data)]
  {
    ParsedOne(m.Action(), m.data);
  }

  lemma {:induction false} StreamLines(sent: seq<Sent>)
    requires forall m :: m in sent ==> m.Clean()
    ensures SplitOn(Stream(sent), '\n') == LinesOf(sent) + [""]
  {
    hide SplitOn, Sent.Action, Sent.Clean;
    if sent == [] {
      SplitNone("", '\n');
      assert LinesOf(sent) == [];
    } else {
      var m, rest := sent[0], sent[1..];
      var line := m.Action() + ":" + m.data;
      CleanLine(m);
      StreamLines(rest);
      StreamCons(sent);
      SplitCons(line, Stream(rest), '\n');
      assert LinesOf(sent) == [line] + LinesOf(rest);
    }
  }

  lemma StreamCons(sent: seq<Sent>)
    requires sent != []
    ensures Stream(sent) == sent[0].Action() + ":" + sent[0].data + ['\n'] + Stream(sent[1..])
  {
    assert "\n" == ['\n'];
  }

  lemma {:induction false} ParsedLines(sent: seq<Sent>)
    requires forall m :: m in sent ==> m.Clean()
    ensures ParsedAll(LinesOf(sent)) == Messages(sent)
    decreases |sent|
  {
    hide ParsedAll, Parsed, Sent.Action, Sent.Clean;
    if sent == [] {
      NothingParsed();
      assert LinesOf(sent) == [];
    } else {
      var n := |sent| - 1;
      ParsedLines(sent[..n]);
      CleanLine(sent[n]);
      assert LinesOf(sent) == LinesOf(sent[..n]) + [sent[n].Action() + ":" + sent[n].data];
      ParsedSnoc(LinesOf(sent[..n]), sent[n].Action() + ":" + sent[n].data);
      assert Messages(sent) == Messages(sent[..n]) + [Message(sent[n].Action(), sent[n].data)];
    }
  }

  /** At every moment the messages received are a beginning of the messages sent. */
  lemma ReceivedSoFar(sent: seq<Sent>, text: string, more: string)
    requires (forall m :: m in sent ==> m.Clean()) && text + more == Stream(sent)
    ensures ParsedAll(Complete(text)) <= Messages(sent)
    ensures more == "" ==> ParsedAll(Complete(text)) == Messages(sent) && Remainder(text) == ""
  {
    hide SplitOn, ParsedAll, Stream;
    StreamLines(sent);
    SplitAppend(text, more, '\n');
    SplitParts(text);
    var n := |Complete(text)|;
    var after := SplitOn(Remainder(text) + more, '\n');
    assert LinesOf(sent) + [""] == Complete(text) + after;
    assert n <= |LinesOf(sent)|;
    assert Complete(text) == (LinesOf(sent) + [""])[..n] == LinesOf(sent[..n]);
    ParsedLines(sent[..n]);
    assert Messages(sent[..n]) == Messages(sent)[..n];
    if more == "" {
      assert text == Stream(sent);
      assert SplitOn(text, '\n')[..|sent|] == LinesOf(sent);
      assert sent[..|sent|] == sent;
    }
  }

  /** However the stream is cut into pieces, the client receives exactly the messages sent, in order. */
  method Receive(sent: seq<Sent>, pieces: seq<string>) returns (received: seq<Message>, rest: string)
    requires (forall m :: m in sent ==> m.Clean()) && Concat(pieces) == Stream(sent)
    ensures received == Messages(sent) && rest == ""
  {
    var client := new VssCli();
    for i := 0 to |pieces|
      invariant client.Valid() && fresh(client) && client.history == Concat(pieces[..i])
    {
      client.HandleNewData(pieces[i]);
      assert pieces[..i + 1][..i] == pieces[..i];
    }
    assert pieces[..|pieces|] == pieces;
    assert client.history + "" == Stream(sent);
    ReceivedSoFar(sent, client.history, "");
    received, rest := client.received, client.sbuffer;
  }

  function Concat(pieces: seq<string>): string
    decreases |pieces|
  {
    if pieces == [] then "" else Concat(pieces[..|pieces| - 1]) + pieces[|pieces| - 1]
  }

  // ----- The server's reading of a line -----

  /** The index of the first character that is one of the separators. */
  function FirstAmong(s: string, seps: string): (i: nat)
    ensures i <= |s|
  {
    if s == [] || s[0] in seps then 0 else 1 + FirstAmong(s[1..], seps)
  }

  function SeparateKeyAndValue(s: string): (string, string) {
    var i := FirstAmong(s, "=;: ");
    if i == |s| then (s, "") else (s[..i], s[i + 1..])
  }

  function SeparateNameAndMetadata(s: string): (string, string) {
    var p := FirstOf(s, '(');
    if p == |s| then (s, "") else
    var meta := s[p + 1..];
    (s[..p], if meta != "" && meta[|meta| - 1] == ')' then meta[..|meta| - 1] else meta)
  }

  function SeparateCommandIdAndPayload(s: string): (string, string, string) {
    var (commandWithId, payload) := SeparateKeyAndValue(s);
    var (command, id) := SeparateNameAndMetadata(commandWithId);
    (command, id, payload)
  }

  lemma {:induction false} FirstAmongIs(a: string, b: string, seps: string)
    requires (forall c :: c in a ==> c !in seps) && b != [] && b[0] in seps
    ensures FirstAmong(a + b, seps) == |a|
  {
    if a == [] {
      assert a + b == b;
    } else {
      assert a[0] in a && (a + b)[1..] == a[1..] + b;
      FirstAmongIs(a[1..], b, seps);
    }
  }

  lemma ActionReadBack(cmd: string, id: string)
    requires '(' !in cmd
    ensures SeparateNameAndMetadata(Sent(cmd, id, "").Action()) == (cmd, id)
  {
    hide FirstOf;
    if id == "" {
      FirstOfIs(cmd, "", '(');
      assert cmd + "" == cmd;
    } else {
      var behind := "(" + id + ")";
      var action := cmd + behind;
      assert action == cmd + "(" + id + ")";
      FirstOfIs(cmd, behind, '(');
      assert action[..|cmd|] == cmd && action[|cmd| + 1..] == id + ")";
      assert (id + ")")[..|id|] == id;
    }
  }

  /** A line without a separator is all name. */
  lemma {:induction false} NoSeparator(s: string)
    requires forall c :: c in s ==> c !in "=;: "
    ensures FirstAmong(s, "=;: ") == |s| && SeparateKeyAndValue(s) == (s, "")
  {
    if s != [] { NoSeparator(s[1..]); }
  }

  /** An id that is not closed is taken whole. */
  lemma OpenMetadata(name: string, meta: string)
    requires '(' !in name && (meta == "" || meta[|meta| - 1] != ')')
    ensures SeparateNameAndMetadata(name + "(" + meta) == (name, meta)
  {
    hide FirstOf;
    var whole := name + "(" + meta;
    assert whole == name + ("(" + meta);
    FirstOfIs(name, "(" + meta, '(');
    assert whole[..|name|] == name && whole[|name| + 1..] == meta;
  }

  /** A command, an id and a payload are read back from the line that carries them, whichever of the four separators
      stands between. */
  lemma CommandReadBack(cmd: string, id: string, sep: char, payload: string)
    requires '(' !in cmd && (forall c :: c in cmd || c in id ==> c !in "=;: ") && sep in "=;: "
    ensures SeparateCommandIdAndPayload(Sent(cmd, id, payload).Action() + [sep] + payload) == (cmd, id, payload)
  {
    hide FirstAmong, FirstOf, SeparateNameAndMetadata;
    var action, rest := Sent(cmd, id, payload).Action(), [sep] + payload;
    var line := action + rest;
    assert line == action + [sep] + payload;
    assert '(' !in "=;: " && ')' !in "=;: ";
    FirstAmongIs(action, rest, "=;: ");
    assert line[..|action|] == action && line[|action| + 1..] == payload;
    ActionReadBack(cmd, id);
  }
}
