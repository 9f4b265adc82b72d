/** The line protocol between the runner and a client: printers, the parser of
    calls and the reader of responses, down to characters. */
module Protocol {
  import opened Kv

  /** Unicode White_Space. */
  predicate IsSpace(c: char) {
    var n := c as int;
    || 9 <= n <= 13 || n == 32 || n == 0x85 || n == 0xA0 || n == 0x1680 || 0x2000 <= n <= 0x200A
    || n == 0x2028 || n == 0x2029 || n == 0x202F || n == 0x205F || n == 0x3000
  }

  predicate AllSpace(s: string) {
    forall i | 0 <= i < |s| :: IsSpace(s[i])
  }

  /** A token: not empty, no whitespace. */
  predicate Token(s: string) {
    s != [] && forall i | 0 <= i < |s| :: !IsSpace(s[i])
  }

  // ----- splitting and trimming -----

  function TokenLen(s: string): (n: nat)
    ensures n <= |s| && (s != [] && !IsSpace(s[0]) ==> n > 0)
  {
    if s == [] || IsSpace(s[0]) then 0 else 1 + TokenLen(s[1..])
  }

  /** split_whitespace */
  function Segs(s: string): seq<string>
    decreases |s|
  {
    if s == [] then []
    else if IsSpace(s[0]) then Segs(s[1..])
    else [s[..TokenLen(s)]] + Segs(s[TokenLen(s)..])
  }

  function TrimStart(s: string): string {
    if s != [] && IsSpace(s[0]) then TrimStart(s[1..]) else s
  }

  function TrimEnd(s: string): string {
    if s != [] && IsSpace(s[|s| - 1]) then TrimEnd(s[..|s| - 1]) else s
  }

  function Trim(s: string): string {
    TrimEnd(TrimStart(s))
  }

  lemma {:induction false} TokenLenIs(t: string, rest: string)
    requires (forall i | 0 <= i < |t| :: !IsSpace(t[i])) && (rest == [] || IsSpace(rest[0]))
    ensures TokenLen(t + rest) == |t|
  {
    if t == [] {
      assert t + rest == rest;
    } else {
      assert (t + rest)[1..] == t[1..] + rest;
      TokenLenIs(t[1..], rest);
    }
  }

  lemma SegsToken(t: string, rest: string)
    requires Token(t) && rest != [] && IsSpace(rest[0])
    ensures Segs(t + rest) == [t] + Segs(rest[1..])
  {
    TokenLenIs(t, rest);
    assert (t + rest)[..|t|] == t && (t + rest)[|t|..] == rest;
  }

  lemma {:induction false} TrimStartIs(a: string, core: string)
    requires AllSpace(a) && (core == [] || !IsSpace(core[0]))
    ensures TrimStart(a + core) == core
  {
    if a == [] {
      assert a + core == core;
    } else {
      assert (a + core)[1..] == a[1..] + core;
      TrimStartIs(a[1..], core);
    }
  }

  lemma {:induction false} TrimEndIs(core: string, b: string)
    requires AllSpace(b) && (core == [] || !IsSpace(core[|core| - 1]))
    ensures TrimEnd(core + b) == core
  {
    if b == [] {
      assert core + b == core;
    } else {
      var n := |b| - 1;
      assert (core + b)[..|core + b| - 1] == core + b[..n];
      TrimEndIs(core, b[..n]);
    }
  }

  lemma TrimIs(a: string, core: string, b: string)
    requires AllSpace(a) && AllSpace(b) && core != [] && !IsSpace(core[0]) && !IsSpace(core[|core| - 1])
    ensures Trim(a + core + b) == core
  {
    assert a + core + b == a + (core + b);
    TrimStartIs(a, core + b);
    TrimEndIs(core, b);
  }

  // ----- reading lines -----

  function LineLen(s: string): (n: nat)
    ensures n <= |s| && (s != [] ==> n > 0)
  {
    if s == [] then 0 else if s[0] == '\n' then 1 else 1 + LineLen(s[1..])
  }

  /** read_next_line: append lines to the buffer until it is not blank. None: end of
      input first, where the source keeps reading for ever. */
  function NextLine(buffer: string, input: string): (r: Option<(string, string)>)
    ensures r.Some? ==> |r.value.1| < |input|
    decreases |input|
  {
    if input == [] then None
    else
      var n := LineLen(input);
      var buffer' := buffer + input[..n];
      if Trim(buffer') != [] then Some((buffer', input[n..])) else NextLine(buffer', input[n..])
  }

  /** Outcome of a read: a value and the unread input, a malformed line, or waiting for input. */
  datatype Read<+T> = Ok(value: T, rest: string) | Malformed | Starved

  function ParseFound(s: string): Option<bool> {
    if s == "found" then Some(true) else if s == "not_found" then Some(false) else None
  }

  function ParseValue(s: string): Option<Value> {
    if s == "null" then None else Some(s)
  }

  /** The entries of a scan frame, up to its closing line. */
  function ReadEntries(input: string, acc: seq<(Key, Value)>): Read<seq<(Key, Value)>>
    decreases |input|
  {
    match NextLine("", input)
    case None => Starved
    case Some((buffer, rest)) =>
      if Trim(buffer) == "SCAN END" then Ok(acc, rest)
      else if |Segs(buffer)| < 2 then Malformed
      else ReadEntries(rest, acc + [(Segs(buffer)[0], Segs(buffer)[1])])
  }

  /** What from_read makes of the segments of a line; a scan goes on reading. */
  function Interpret(segs: seq<string>, rest: string): Read<Resp> {
    if segs == [] then Malformed
    else if segs[0] == "STOP" then Ok(StopResp, rest)
    else if |segs| < 3 then Malformed
    else if segs[0] == "PUT" then
      match ParseFound(segs[2]) case Some(found) => Ok(PutResp(segs[1], found), rest) case None => Malformed
    else if segs[0] == "SWAP" then Ok(SwapResp(segs[1], ParseValue(segs[2])), rest)
    else if segs[0] == "GET" then Ok(GetResp(segs[1], ParseValue(segs[2])), rest)
    else if segs[0] == "SCAN" then
      if |segs| < 4 || segs[3] != "BEGIN" then Malformed
      else
        match ReadEntries(rest, [])
        case Ok(entries, rest') => Ok(ScanResp(segs[1], segs[2], entries), rest')
        case Malformed => Malformed
        case Starved => Starved
    else if segs[0] == "DELETE" then
      match ParseFound(segs[2]) case Some(found) => Ok(DeleteResp(segs[1], found), rest) case None => Malformed
    else Malformed
  }

  /** KvResp::from_read */
  function FromRead(input: string): Read<Resp> {
    match NextLine("", input)
    case None => Starved
    case Some((buffer, rest)) => Interpret(Segs(buffer), rest)
  }

  function ReadResps(input: string, n: nat): Read<seq<Resp>>
    decreases n
  {
    if n == 0 then Ok([], input)
    else
      match FromRead(input)
      case Malformed => Malformed
      case Starved => Starved
      case Ok(r, rest) =>
        match ReadResps(rest, n - 1)
        case Ok(rs, rest') => Ok([r] + rs, rest')
        case Malformed => Malformed
        case Starved => Starved
  }

  /** parse_input_call, on the segments of the line. */
  function ParseCall(segs: seq<string>): Option<Call> {
    if segs == [] then None
    else if segs[0] == "STOP" then Some(Stop)
    else if |segs| < 2 then None
    else if segs[0] == "GET" then Some(Get(segs[1]))
    else if segs[0] == "DELETE" then Some(Delete(segs[1]))
    else if |segs| < 3 then None
    else if segs[0] == "PUT" then Some(Put(segs[1], segs[2]))
    else if segs[0] == "SWAP" then Some(Swap(segs[1], segs[2]))
    else if segs[0] == "SCAN" then Some(Scan(segs[1], segs[2]))
    else None
  }

  /** The reference client's input step: next line, trimmed and parsed. */
  function ReadCall(input: string): Read<Call> {
    match NextLine("", input)
    case None => Starved
    case Some((buffer, rest)) =>
      match ParseCall(Segs(Trim(buffer))) case None => Malformed case Some(c) => Ok(c, rest)
  }

  function ReadCalls(input: string, n: nat): Read<seq<Call>>
    decreases n
  {
    if n == 0 then Ok([], input)
    else
      match ReadCall(input)
      case Malformed => Malformed
      case Starved => Starved
      case Ok(c, rest) =>
        match ReadCalls(rest, n - 1)
        case Ok(cs, rest') => Ok([c] + cs, rest')
        case Malformed => Malformed
        case Starved => Starved
  }

  // ----- printing -----

  /** The tokens separated by single spaces, then a newline. */
  function Line(tokens: seq<string>): string {
    if tokens == [] then "\n"
    else if |tokens| == 1 then tokens[0] + "\n"
    else tokens[0] + " " + Line(tokens[1..])
  }

  function CallTokens(call: Call): seq<string> {
    match call
    case Put(k, v) => ["PUT", k, v]
    case Swap(k, v) => ["SWAP", k, v]
    case Get(k) => ["GET", k]
    case Scan(a, b) => ["SCAN", a, b]
    case Delete(k) => ["DELETE", k]
    case Stop => ["STOP"]
  }

  function PrintCalls(calls: seq<Call>): string {
    if calls == [] then "" else Line(CallTokens(calls[0])) + PrintCalls(calls[1..])
  }

  function PrintFound(found: bool): string {
    if found then "found" else "not_found"
  }

  function PrintValue(v: Option<Value>): string {
    match v case Some(s) => s case None => "null"
  }

  function PrintEntries(entries: seq<(Key, Value)>): string {
    if entries == [] then Line(["SCAN", "END"])
    else "  " + Line([entries[0].0, entries[0].1]) + PrintEntries(entries[1..])
  }

  function PrintResp(resp: Resp): string {
    match resp
    case PutResp(k, found) => Line(["PUT", k, PrintFound(found)])
    case SwapResp(k, v) => Line(["SWAP", k, PrintValue(v)])
    case GetResp(k, v) => Line(["GET", k, PrintValue(v)])
    case ScanResp(a, b, entries) => Line(["SCAN", a, b, "BEGIN"]) + PrintEntries(entries)
    case DeleteResp(k, found) => Line(["DELETE", k, PrintFound(found)])
    case StopResp => Line(["STOP"])
  }

  function PrintResps(resps: seq<Resp>): string {
    if resps == [] then "" else PrintResp(resps[0]) + PrintResps(resps[1..])
  }

  // ----- what a printed line reads back as -----

  ghost predicate Tokens(ts: seq<string>) {
    ts != [] && forall i | 0 <= i < |ts| :: Token(ts[i])
  }

  lemma {:induction false} SegsLine(ts: seq<string>)
    requires Tokens(ts)
    ensures Segs(Line(ts)) == ts
  {
    if |ts| == 1 {
      SegsToken(ts[0], "\n");
      assert Segs("\n"[1..]) == [];
    } else {
      SegsLine(ts[1..]);
      assert Line(ts) == ts[0] + (" " + Line(ts[1..]));
      SegsToken(ts[0], " " + Line(ts[1..]));
      assert (" " + Line(ts[1..]))[1..] == Line(ts[1..]);
      assert ts == [ts[0]] + ts[1..];
    }
  }

  ghost predicate OneLine(s: string) {
    s != [] && s[|s| - 1] == '\n' && forall i | 0 <= i < |s| - 1 :: s[i] != '\n'
  }

  lemma {:induction false} LineIsOne(ts: seq<string>)
    requires Tokens(ts)
    ensures OneLine(Line(ts)) && !IsSpace(Line(ts)[0])
  {
    assert Token(ts[0]);
    if |ts| > 1 {
      LineIsOne(ts[1..]);
    }
  }

  lemma {:induction false} LineLenIs(line: string, rest: string)
    requires OneLine(line)
    ensures LineLen(line + rest) == |line|
  {
    if |line| > 1 {
      assert (line + rest)[1..] == line[1..] + rest;
      LineLenIs(line[1..], rest);
    }
  }

  lemma {:induction false} TrimStartKeeps(s: string)
    requires !AllSpace(s)
    ensures TrimStart(s) != [] && !IsSpace(TrimStart(s)[0])
  {
    if IsSpace(s[0]) {
      assert s == [s[0]] + s[1..];
      TrimStartKeeps(s[1..]);
    }
  }

  lemma {:induction false} TrimEndKeeps(s: string)
    requires s != [] && !IsSpace(s[0])
    ensures TrimEnd(s) != []
  {
    if IsSpace(s[|s| - 1]) {
      TrimEndKeeps(s[..|s| - 1]);
    }
  }

  lemma NextLineIs(line: string, rest: string)
    requires OneLine(line) && !AllSpace(line)
    ensures NextLine("", line + rest) == Some((line, rest))
  {
    LineLenIs(line, rest);
    assert (line + rest)[..|line|] == line && (line + rest)[|line|..] == rest;
    assert "" + line == line;
    TrimStartKeeps(line);
    TrimEndKeeps(TrimStart(line));
  }

  lemma NextPrinted(ts: seq<string>, rest: string)
    requires Tokens(ts)
    ensures NextLine("", Line(ts) + rest) == Some((Line(ts), rest)) && Segs(Line(ts)) == ts
  {
    LineIsOne(ts);
    NextLineIs(Line(ts), rest);
    SegsLine(ts);
  }

  // ----- calls -----

  ghost predicate CallOk(call: Call) {
    Tokens(CallTokens(call))
  }

  lemma {:induction false} LineEnds(ts: seq<string>) returns (core: string)
    requires Tokens(ts)
    ensures Line(ts) == core + "\n" && core != [] && !IsSpace(core[0]) && !IsSpace(core[|core| - 1])
  {
    assert Token(ts[0]);
    if |ts| == 1 {
      core := ts[0];
    } else {
      var c := LineEnds(ts[1..]);
      core := ts[0] + " " + c;
    }
  }

  lemma {:induction false} SegsDropsEnd(s: string)
    ensures Segs(s + "\n") == Segs(s)
    decreases |s|
  {
    if s == [] {
      assert s + "\n" == "\n";
      assert "\n"[1..] == "";
    } else if IsSpace(s[0]) {
      assert (s + "\n")[1..] == s[1..] + "\n";
      SegsDropsEnd(s[1..]);
    } else {
      TokenLenKept(s);
      var n := TokenLen(s);
      assert (s + "\n")[..n] == s[..n] && (s + "\n")[n..] == s[n..] + "\n";
      SegsDropsEnd(s[n..]);
    }
  }

  lemma {:induction false} TokenLenKept(s: string)
    ensures TokenLen(s + "\n") == TokenLen(s)
  {
    if s == [] {
      assert s + "\n" == "\n";
    } else if !IsSpace(s[0]) {
      assert (s + "\n")[1..] == s[1..] + "\n";
      TokenLenKept(s[1..]);
    }
  }

  lemma TrimmedSegs(ts: seq<string>)
    requires Tokens(ts)
    ensures Segs(Trim(Line(ts))) == ts
  {
    var core := LineEnds(ts);
    TrimIs("", core, "\n");
    assert "" + core + "\n" == Line(ts);
    SegsDropsEnd(core);
    SegsLine(ts);
  }

  lemma CallParsesBack(call: Call)
    ensures ParseCall(CallTokens(call)) == Some(call)
  {
  }

  lemma CallReadsBack(call: Call, rest: string)
    requires CallOk(call)
    ensures ReadCall(Line(CallTokens(call)) + rest) == Ok(call, rest)
  {
    NextPrinted(CallTokens(call), rest);
    TrimmedSegs(CallTokens(call));
    CallParsesBack(call);
  }

  /** Printing any list of calls and parsing it back gives the list, consuming exactly what was printed. */
  lemma {:induction false} CallsRoundTrip(calls: seq<Call>, rest: string)
    requires forall i | 0 <= i < |calls| :: CallOk(calls[i])
    ensures ReadCalls(PrintCalls(calls) + rest, |calls|) == Ok(calls, rest)
  {
    if calls == [] {
      assert PrintCalls(calls) + rest == rest;
    } else {
      var more := PrintCalls(calls[1..]) + rest;
      assert PrintCalls(calls) + rest == Line(CallTokens(calls[0])) + more;
      CallReadsBack(calls[0], more);
      CallsRoundTrip(calls[1..], rest);
      assert calls == [calls[0]] + calls[1..];
    }
  }

  // ----- responses -----

  /** Every key and value of the response is a token. */
  ghost predicate RespOk(resp: Resp) {
    match resp
    case PutResp(k, _) => Token(k)
    case DeleteResp(k, _) => Token(k)
    case SwapResp(k, v) => Token(k) && (v.Some? ==> Token(v.value))
    case GetResp(k, v) => Token(k) && (v.Some? ==> Token(v.value))
    case ScanResp(a, b, entries) =>
      Token(a) && Token(b) && EntriesOk(entries)
    case StopResp => true
  }

  /** The two values the format cannot carry: a value "null" and an entry ("SCAN", "END"). */
  predicate Faithful(resp: Resp) {
    match resp
    case SwapResp(_, v) => v != Some("null")
    case GetResp(_, v) => v != Some("null")
    case ScanResp(_, _, entries) => !HasEnd(entries)
    case _ => true
  }

  lemma EntryLine(k: Key, v: Value, rest: string)
    requires Token(k) && Token(v)
    ensures var line := "  " + Line([k, v]);
      && NextLine("", line + rest) == Some((line, rest))
      && Segs(line) == [k, v]
      && Trim(line) == k + " " + v
  {
    var line := "  " + Line([k, v]);
    assert Tokens([k, v]);
    LineIsOne([k, v]);
    SegsLine([k, v]);
    assert Line([k, v]) == k + " " + (v + "\n") by {
      assert [k, v][1..] == [v];
    }
    var core := k + " " + v;
    assert line == "  " + core + "\n";
    TrimIs("  ", core, "\n");
    assert !IsSpace(line[2]);
    NextLineIs(line, rest);
    assert line[1..][1..] == Line([k, v]);
  }

  lemma EntryIsEnd(k: Key, v: Value)
    requires Token(k) && Token(v)
    ensures k + " " + v == "SCAN END" <==> k == "SCAN" && v == "END"
  {
    if k + " " + v == "SCAN END" {
      var s := k + " " + v;
      assert s[|k|] == ' ';
      assert "SCAN END"[4] == ' ' && forall i | 0 <= i < 8 && i != 4 :: "SCAN END"[i] != ' ';
      assert |k| == 4;
      assert k == s[..4] && v == s[5..];
      assert "SCAN END"[..4] == "SCAN" && "SCAN END"[5..] == "END";
    }
  }

  lemma EntryReadBack(k: Key, v: Value, acc: seq<(Key, Value)>, more: string)
    requires Token(k) && Token(v)
    ensures ReadEntries("  " + Line([k, v]) + more, acc) ==
      if (k, v) == ("SCAN", "END") then Ok(acc, more) else ReadEntries(more, acc + [(k, v)])
  {
    EntryLine(k, v, more);
    EntryIsEnd(k, v);
  }

  lemma EndReadBack(entries: seq<(Key, Value)>, acc: seq<(Key, Value)>, rest: string)
    requires entries == []
    ensures ReadEntries(PrintEntries(entries) + rest, acc) == Ok(acc + entries, rest)
  {
    var end := ["SCAN", "END"];
    assert Token("SCAN") && Token("END");
    NextPrinted(end, rest);
    assert Line(end) == "" + "SCAN END" + "\n" by {
      assert end[1..] == ["END"];
    }
    TrimIs("", "SCAN END", "\n");
    assert acc + entries == acc;
  }

  /** An entry that looks like the end of the frame. */
  predicate LooksLikeEnd(e: (Key, Value)) {
    e == ("SCAN", "END")
  }

  predicate HasEnd(entries: seq<(Key, Value)>) {
    exists i | 0 <= i < |entries| :: LooksLikeEnd(entries[i])
  }

  lemma HeadOrTail(entries: seq<(Key, Value)>)
    requires entries != []
    ensures HasEnd(entries) <==> LooksLikeEnd(entries[0]) || HasEnd(entries[1..])
  {
    if i :| 0 <= i < |entries| && LooksLikeEnd(entries[i]) {
      assert i > 0 ==> entries[1..][i - 1] == entries[i];
    }
    if i :| 0 <= i < |entries[1..]| && LooksLikeEnd(entries[1..][i]) {
      assert entries[i + 1] == entries[1..][i];
    }
  }

  lemma FirstEntry(entries: seq<(Key, Value)>, acc: seq<(Key, Value)>, rest: string)
    requires entries != [] && Token(entries[0].0) && Token(entries[0].1)
    ensures var more := PrintEntries(entries[1..]) + rest;
      ReadEntries(PrintEntries(entries) + rest, acc) ==
      if LooksLikeEnd(entries[0]) then Ok(acc, more) else ReadEntries(more, acc + [entries[0]])
  {
    var (k, v) := entries[0];
    var more := PrintEntries(entries[1..]) + rest;
    assert PrintEntries(entries) + rest == "  " + Line([k, v]) + more;
    EntryReadBack(k, v, acc, more);
  }

  lemma Regroup(acc: seq<(Key, Value)>, entries: seq<(Key, Value)>)
    requires entries != []
    ensures acc + [entries[0]] + entries[1..] == acc + entries
  {
  }

  ghost predicate EntriesOk(entries: seq<(Key, Value)>) {
    forall i | 0 <= i < |entries| :: Token(entries[i].0) && Token(entries[i].1)
  }

  /** Printed entries without a look-alike of the end are read back in full. */
  lemma {:induction false} EntriesReadBack(entries: seq<(Key, Value)>, acc: seq<(Key, Value)>, rest: string)
    requires EntriesOk(entries) && !HasEnd(entries)
    ensures ReadEntries(PrintEntries(entries) + rest, acc) == Ok(acc + entries, rest)
  {
    if entries == [] {
      EndReadBack(entries, acc, rest);
    } else {
      FirstEntry(entries, acc, rest);
      HeadOrTail(entries);
      EntriesReadBack(entries[1..], acc + [entries[0]], rest);
      Regroup(acc, entries);
    }
  }

  /** With one, reading stops there and loses the rest. */
  lemma {:induction false} EntriesCutShort(entries: seq<(Key, Value)>, acc: seq<(Key, Value)>, rest: string)
    requires EntriesOk(entries) && HasEnd(entries)
    ensures var r := ReadEntries(PrintEntries(entries) + rest, acc); r.Ok? && |r.value| < |acc| + |entries|
  {
    FirstEntry(entries, acc, rest);
    HeadOrTail(entries);
    if !LooksLikeEnd(entries[0]) {
      EntriesCutShort(entries[1..], acc + [entries[0]], rest);
    }
  }

  lemma FromPrinted(ts: seq<string>, rest: string)
    requires Tokens(ts)
    ensures FromRead(Line(ts) + rest) == Interpret(ts, rest)
  {
    NextPrinted(ts, rest);
  }

  lemma FixedTokens()
    ensures Token("PUT") && Token("SWAP") && Token("GET") && Token("DELETE") && Token("STOP") && Token("SCAN")
    ensures Token("found") && Token("not_found") && Token("null") && Token("BEGIN")
  {
  }

  lemma InterpretScan(a: Key, b: Key, rest: string, entries: seq<(Key, Value)>, rest': string)
    requires ReadEntries(rest, []) == Ok(entries, rest')
    ensures Interpret(["SCAN", a, b, "BEGIN"], rest) == Ok(ScanResp(a, b, entries), rest')
  {
  }

  lemma InterpretFound(k: Key, found: bool, rest: string)
    ensures Interpret(["PUT", k, PrintFound(found)], rest) == Ok(PutResp(k, found), rest)
    ensures Interpret(["DELETE", k, PrintFound(found)], rest) == Ok(DeleteResp(k, found), rest)
  {
  }

  lemma InterpretValue(k: Key, s: string, rest: string)
    ensures Interpret(["SWAP", k, s], rest) == Ok(SwapResp(k, ParseValue(s)), rest)
    ensures Interpret(["GET", k, s], rest) == Ok(GetResp(k, ParseValue(s)), rest)
  {
  }

  /** What a printed response is read as: itself when faithful, another response when not. */
  lemma ReadsBack(resp: Resp, rest: string)
    requires RespOk(resp)
    ensures var r := FromRead(PrintResp(resp) + rest);
      if Faithful(resp) then r == Ok(resp, rest) else r.Ok? && r.value != resp
  {
    FixedTokens();
    match resp
    case PutResp(k, found) =>
      FromPrinted(["PUT", k, PrintFound(found)], rest);
      InterpretFound(k, found, rest);
    case DeleteResp(k, found) =>
      FromPrinted(["DELETE", k, PrintFound(found)], rest);
      InterpretFound(k, found, rest);
    case SwapResp(k, v) =>
      FromPrinted(["SWAP", k, PrintValue(v)], rest);
      InterpretValue(k, PrintValue(v), rest);
    case GetResp(k, v) =>
      FromPrinted(["GET", k, PrintValue(v)], rest);
      InterpretValue(k, PrintValue(v), rest);
    case StopResp => FromPrinted(["STOP"], rest);
    case ScanResp(a, b, entries) => ScanReadsBack(a, b, entries, rest);
  }

  lemma ScanReadsBack(a: Key, b: Key, entries: seq<(Key, Value)>, rest: string)
    requires RespOk(ScanResp(a, b, entries)) && Token("SCAN") && Token("BEGIN")
    ensures var resp := ScanResp(a, b, entries);
      var r := FromRead(PrintResp(resp) + rest);
      if Faithful(resp) then r == Ok(resp, rest) else r.Ok? && r.value != resp
  {
    var ts := ["SCAN", a, b, "BEGIN"];
    var more := PrintEntries(entries) + rest;
    assert PrintResp(ScanResp(a, b, entries)) + rest == Line(ts) + more;
    FromPrinted(ts, more);
    if HasEnd(entries) {
      EntriesCutShort(entries, [], rest);
    } else {
      EntriesReadBack(entries, [], rest);
      assert [] + entries == entries;
    }
    var r := ReadEntries(more, []);
    InterpretScan(a, b, more, r.value, r.rest);
  }

  /** A printed response is read back as itself, consuming exactly its own lines, if and only if it is faithful. */
  lemma RespRoundTrip(resp: Resp, rest: string)
    requires RespOk(resp)
    ensures FromRead(PrintResp(resp) + rest) == Ok(resp, rest) <==> Faithful(resp)
  {
    ReadsBack(resp, rest);
  }

  lemma AllSplit(resps: seq<Resp>)
    requires resps != []
    ensures (forall i | 0 <= i < |resps| :: Faithful(resps[i])) <==>
            Faithful(resps[0]) && forall i | 0 <= i < |resps[1..]| :: Faithful(resps[1..][i])
  {
    forall i | 1 <= i < |resps| ensures resps[i] == resps[1..][i - 1] {
    }
  }

  lemma StreamStep(resps: seq<Resp>, rest: string)
    requires resps != [] && RespOk(resps[0])
    ensures var r := ReadResps(PrintResps(resps) + rest, |resps|);
      var tail := ReadResps(PrintResps(resps[1..]) + rest, |resps| - 1);
      if Faithful(resps[0])
      then r == match tail case Ok(rs, rest') => Ok([resps[0]] + rs, rest') case Malformed => Malformed case Starved => Starved
      else r.Ok? ==> r.value != resps
  {
    var more := PrintResps(resps[1..]) + rest;
    assert PrintResps(resps) + rest == PrintResp(resps[0]) + more;
    ReadsBack(resps[0], more);
  }

  lemma SameList(resps: seq<Resp>, rs: seq<Resp>)
    requires resps != []
    ensures [resps[0]] + rs == resps <==> rs == resps[1..]
  {
    assert resps == [resps[0]] + resps[1..];
    assert ([resps[0]] + rs)[1..] == rs;
  }

  /** A whole stream of responses reads back as printed exactly when each response is faithful. */
  lemma {:induction false} StreamRoundTrip(resps: seq<Resp>, rest: string)
    requires forall i | 0 <= i < |resps| :: RespOk(resps[i])
    ensures ReadResps(PrintResps(resps) + rest, |resps|) == Ok(resps, rest)
            <==> forall i | 0 <= i < |resps| :: Faithful(resps[i])
  {
    if resps == [] {
      assert PrintResps(resps) + rest == rest;
    } else {
      StreamStep(resps, rest);
      AllSplit(resps);
      if Faithful(resps[0]) {
        StreamRoundTrip(resps[1..], rest);
        var tail := ReadResps(PrintResps(resps[1..]) + rest, |resps| - 1);
        if tail.Ok? {
          SameList(resps, tail.value);
        }
      }
    }
  }

  // ----- the words on the wire -----

  lemma TwoTokens(a: string, b: string)
    ensures Line([a, b]) == a + " " + b + "\n"
  {
    assert [a, b][1..] == [b];
    assert Line([b]) == b + "\n";
  }

  lemma ThreeTokens(a: string, b: string, c: string)
    ensures Line([a, b, c]) == a + " " + b + " " + c + "\n"
  {
    assert [a, b, c][1..] == [b, c];
    TwoTokens(b, c);
  }

  lemma FourTokens(a: string, b: string, c: string, d: string)
    ensures Line([a, b, c, d]) == a + " " + b + " " + c + " " + d + "\n"
  {
    assert [a, b, c, d][1..] == [b, c, d];
    ThreeTokens(b, c, d);
  }

  /** The words with the space that follows them. */
  lemma Spaced()
    ensures "PUT" + " " == "PUT " && "SWAP" + " " == "SWAP " && "GET" + " " == "GET "
    ensures "SCAN" + " " == "SCAN " && "DELETE" + " " == "DELETE "
    ensures " " + "BEGIN" + "\n" == " BEGIN\n" && "STOP" + "\n" == "STOP\n"
  {
  }

  lemma OneCall(call: Call)
    ensures PrintCalls([call]) == Line(CallTokens(call))
  {
    assert PrintCalls([call][1..]) == "";
  }

  /** The text of each kind of call. */
  lemma CallText(call: Call)
    ensures PrintCalls([call]) ==
      match call
      case Put(k, v) => "PUT " + k + " " + v + "\n"
      case Swap(k, v) => "SWAP " + k + " " + v + "\n"
      case Get(k) => "GET " + k + "\n"
      case Scan(a, b) => "SCAN " + a + " " + b + "\n"
      case Delete(k) => "DELETE " + k + "\n"
      case Stop => "STOP\n"
  {
    OneCall(call);
    Spaced();
    match call
    case Put(k, v) => ThreeTokens("PUT", k, v);
    case Swap(k, v) => ThreeTokens("SWAP", k, v);
    case Get(k) => TwoTokens("GET", k);
    case Scan(a, b) => ThreeTokens("SCAN", a, b);
    case Delete(k) => TwoTokens("DELETE", k);
    case Stop =>
  }

  lemma CallTextReadsBack(call: Call, rest: string)
    requires CallOk(call)
    ensures ReadCall(PrintCalls([call]) + rest) == Ok(call, rest)
  {
    OneCall(call);
    CallReadsBack(call, rest);
  }

  /** What each line is parsed as, word by word. */
  lemma CallLine(call: Call, rest: string)
    requires CallOk(call)
    ensures match call
      case Put(k, v) => ReadCall("PUT " + k + " " + v + "\n" + rest) == Ok(Put(k, v), rest)
      case Swap(k, v) => ReadCall("SWAP " + k + " " + v + "\n" + rest) == Ok(Swap(k, v), rest)
      case Get(k) => ReadCall("GET " + k + "\n" + rest) == Ok(Get(k), rest)
      case Scan(a, b) => ReadCall("SCAN " + a + " " + b + "\n" + rest) == Ok(Scan(a, b), rest)
      case Delete(k) => ReadCall("DELETE " + k + "\n" + rest) == Ok(Delete(k), rest)
      case Stop => ReadCall("STOP\n" + rest) == Ok(Stop, rest)
  {
    CallText(call);
    CallTextReadsBack(call, rest);
  }

  lemma ParseAccepted(ts: seq<string>)
    requires ts != []
    ensures ParseCall(ts).Some? <==>
      || ts[0] == "STOP"
      || (|ts| >= 2 && (ts[0] == "GET" || ts[0] == "DELETE"))
      || (|ts| >= 3 && (ts[0] == "PUT" || ts[0] == "SWAP" || ts[0] == "SCAN"))
  {
  }

  lemma ReadCallParses(ts: seq<string>, rest: string)
    requires Tokens(ts)
    ensures ReadCall(Line(ts) + rest) == match ParseCall(ts) case None => Malformed case Some(c) => Ok(c, rest)
  {
    NextPrinted(ts, rest);
    TrimmedSegs(ts);
  }

  /** The lines the call parser accepts: a known word with enough tokens after it. */
  lemma CallAcceptedExact(ts: seq<string>, rest: string)
    requires Tokens(ts)
    ensures ReadCall(Line(ts) + rest).Ok? <==>
      || ts[0] == "STOP"
      || (|ts| >= 2 && (ts[0] == "GET" || ts[0] == "DELETE"))
      || (|ts| >= 3 && (ts[0] == "PUT" || ts[0] == "SWAP" || ts[0] == "SCAN"))
  {
    ReadCallParses(ts, rest);
    ParseAccepted(ts);
  }

  lemma FoundText(k: Key, found: bool)
    ensures PrintResp(PutResp(k, found)) == "PUT " + k + " " + (if found then "found" else "not_found") + "\n"
    ensures PrintResp(DeleteResp(k, found)) == "DELETE " + k + " " + (if found then "found" else "not_found") + "\n"
  {
    Spaced();
    ThreeTokens("PUT", k, PrintFound(found));
    ThreeTokens("DELETE", k, PrintFound(found));
  }

  lemma ValueText(k: Key, v: Option<Value>)
    ensures PrintResp(SwapResp(k, v)) == "SWAP " + k + " " + (if v.Some? then v.value else "null") + "\n"
    ensures PrintResp(GetResp(k, v)) == "GET " + k + " " + (if v.Some? then v.value else "null") + "\n"
  {
    Spaced();
    ThreeTokens("SWAP", k, PrintValue(v));
    ThreeTokens("GET", k, PrintValue(v));
  }

  lemma ScanText(a: Key, b: Key, entries: seq<(Key, Value)>)
    ensures PrintResp(ScanResp(a, b, entries)) == "SCAN " + a + " " + b + " BEGIN\n" + PrintEntries(entries)
    ensures PrintResp(StopResp) == "STOP\n"
  {
    Spaced();
    FourTokens("SCAN", a, b, "BEGIN");
    assert "SCAN" + " " + a + " " + b + " " + "BEGIN" + "\n" == "SCAN " + a + " " + b + (" " + "BEGIN" + "\n");
  }

  /** The text of the lines of a scan frame. */
  lemma EntriesText(k: Key, v: Value, entries: seq<(Key, Value)>)
    ensures PrintEntries([]) == "SCAN END\n"
    ensures PrintEntries([(k, v)] + entries) == "  " + k + " " + v + "\n" + PrintEntries(entries)
  {
    TwoTokens("SCAN", "END");
    TwoTokens(k, v);
    assert ([(k, v)] + entries)[1..] == entries;
  }

  lemma ThreeTokenLine(word: string, k: string, w: string, rest: string)
    requires Token(word) && Token(k) && Token(w)
    ensures FromRead(word + " " + k + " " + w + "\n" + rest) == Interpret([word, k, w], rest)
  {
    ThreeTokens(word, k, w);
    FromPrinted([word, k, w], rest);
  }

  /** What the reader makes of PUT and DELETE lines: exactly the two words are accepted. */
  lemma FoundLines(k: string, w: string, rest: string)
    requires Token(k) && Token(w)
    ensures FromRead("PUT " + k + " " + w + "\n" + rest) ==
      if w == "found" then Ok(PutResp(k, true), rest) else if w == "not_found" then Ok(PutResp(k, false), rest) else Malformed
    ensures FromRead("DELETE " + k + " " + w + "\n" + rest) ==
      if w == "found" then Ok(DeleteResp(k, true), rest) else if w == "not_found" then Ok(DeleteResp(k, false), rest) else Malformed
  {
    FixedTokens();
    ThreeTokenLine("PUT", k, w, rest);
    ThreeTokenLine("DELETE", k, w, rest);
    Spaced();
  }

  /** What the reader makes of SWAP and GET lines: "null" is no value, any other word is the value. */
  lemma ValueLines(k: string, w: string, rest: string)
    requires Token(k) && Token(w)
    ensures FromRead("SWAP " + k + " " + w + "\n" + rest) == Ok(SwapResp(k, if w == "null" then None else Some(w)), rest)
    ensures FromRead("GET " + k + " " + w + "\n" + rest) == Ok(GetResp(k, if w == "null" then None else Some(w)), rest)
  {
    FixedTokens();
    ThreeTokenLine("SWAP", k, w, rest);
    ThreeTokenLine("GET", k, w, rest);
    Spaced();
  }

  lemma InterpretAccepts(ts: seq<string>, rest: string)
    requires ts != []
    ensures Interpret(ts, rest).Ok? <==>
      || ts[0] == "STOP"
      || (|ts| >= 3 && (ts[0] == "SWAP" || ts[0] == "GET"))
      || (|ts| >= 3 && (ts[0] == "PUT" || ts[0] == "DELETE") && (ts[2] == "found" || ts[2] == "not_found"))
      || (|ts| >= 4 && ts[0] == "SCAN" && ts[3] == "BEGIN" && ReadEntries(rest, []).Ok?)
  {
  }

  /** The first lines the response reader accepts; a scan is accepted when its frame is, too. */
  lemma RespAcceptedExact(ts: seq<string>, rest: string)
    requires Tokens(ts)
    ensures FromRead(Line(ts) + rest).Ok? <==>
      || ts[0] == "STOP"
      || (|ts| >= 3 && (ts[0] == "SWAP" || ts[0] == "GET"))
      || (|ts| >= 3 && (ts[0] == "PUT" || ts[0] == "DELETE") && (ts[2] == "found" || ts[2] == "not_found"))
      || (|ts| >= 4 && ts[0] == "SCAN" && ts[3] == "BEGIN" && ReadEntries(rest, []).Ok?)
  {
    FromPrinted(ts, rest);
    InterpretAccepts(ts, rest);
  }

  lemma EndLine()
    ensures Tokens(["SCAN", "END"]) && Trim(Line(["SCAN", "END"])) == "SCAN END"
  {
    assert Token("SCAN") && Token("END");
    TwoTokens("SCAN", "END");
    assert Line(["SCAN", "END"]) == "" + "SCAN END" + "\n";
    TrimIs("", "SCAN END", "\n");
  }

  /** Every line inside a scan frame: the end, an entry of its first two tokens, or malformed. */
  lemma EntryLineExact(ts: seq<string>, rest: string, acc: seq<(Key, Value)>)
    requires Tokens(ts)
    ensures ReadEntries(Line(ts) + rest, acc) ==
      if ts == ["SCAN", "END"] then Ok(acc, rest)
      else if |ts| < 2 then Malformed
      else ReadEntries(rest, acc + [(ts[0], ts[1])])
  {
    NextPrinted(ts, rest);
    EndLine();
    TrimmedSegs(ts);
    TrimmedSegs(["SCAN", "END"]);
  }

  /** Tokens after the third are ignored in calls, and in responses other than the first line of a scan. */
  lemma ExtraTokensIgnored(ts: seq<string>, rest: string)
    requires Tokens(ts) && |ts| >= 3
    ensures ReadCall(Line(ts) + rest) == ReadCall(Line(ts[..3]) + rest)
    ensures ts[0] != "SCAN" ==> FromRead(Line(ts) + rest) == FromRead(Line(ts[..3]) + rest)
  {
    ReadCallParses(ts, rest);
    ReadCallParses(ts[..3], rest);
    FromPrinted(ts, rest);
    FromPrinted(ts[..3], rest);
    OnlyThreeMatter(ts, ts[..3], rest);
  }

  lemma OnlyThreeMatter(ts: seq<string>, us: seq<string>, rest: string)
    requires |ts| >= 3 && |us| >= 3 && ts[0] == us[0] && ts[1] == us[1] && ts[2] == us[2]
    ensures ParseCall(ts) == ParseCall(us)
    ensures ts[0] != "SCAN" ==> Interpret(ts, rest) == Interpret(us, rest)
  {
  }

  // ----- white space -----

  /** The code points of the Unicode property White_Space. */
  const WHITE_SPACE: set<int> := {
    0x9, 0xA, 0xB, 0xC, 0xD, 0x20, 0x85, 0xA0, 0x1680,
    0x2000, 0x2001, 0x2002, 0x2003, 0x2004, 0x2005, 0x2006, 0x2007, 0x2008, 0x2009, 0x200A,
    0x2028, 0x2029, 0x202F, 0x205F, 0x3000
  }

  lemma WholeToken(t: string)
    requires Token(t)
    ensures Segs(t) == [t]
  {
    TokenLenIs(t, "");
    assert t + "" == t && t[..|t|] == t;
  }

  /** A character between two tokens splits them exactly when it is white space. */
  lemma SplitsExact(a: string, c: char, b: string)
    requires Token(a) && Token(b)
    ensures Segs(a + [c] + b) == (if c as int in WHITE_SPACE then [a, b] else [a + [c] + b])
  {
    assert IsSpace(c) <==> c as int in WHITE_SPACE;
    if IsSpace(c) {
      assert a + [c] + b == a + ([c] + b);
      SegsToken(a, [c] + b);
      assert ([c] + b)[1..] == b;
      WholeToken(b);
    } else {
      WholeToken(a + [c] + b);
    }
  }

  lemma {:induction false} SegsSkip(blanks: string, s: string)
    requires AllSpace(blanks)
    ensures Segs(blanks + s) == Segs(s)
  {
    if blanks == [] {
      assert blanks + s == s;
    } else {
      assert (blanks + s)[1..] == blanks[1..] + s;
      SegsSkip(blanks[1..], s);
    }
  }

  lemma TrimSkip(blanks: string, s: string)
    requires AllSpace(blanks) && s != [] && !IsSpace(s[0])
    ensures Trim(blanks + s) == Trim(s) && Trim(s) != []
  {
    TrimStartIs(blanks, s);
    TrimStartIs("", s);
    assert "" + s == s;
    TrimEndKeeps(s);
  }

  lemma BlankTrims(blanks: string)
    requires AllSpace(blanks)
    ensures Trim(blanks) == []
  {
    TrimStartIs(blanks, "");
    assert blanks + "" == blanks;
  }

  /** The first line of the input, when it starts with blanks: a blank line, or all blanks and the line after them. */
  lemma {:induction false} FirstLineLen(blanks: string, line: string, rest: string)
    requires OneLine(line)
    ensures var n := LineLen(blanks + line + rest);
      if '\n' in blanks then 0 < n <= |blanks| else n == |blanks| + |line|
  {
    if blanks == [] {
      assert blanks + line + rest == line + rest;
      LineLenIs(line, rest);
    } else {
      assert (blanks + line + rest)[1..] == blanks[1..] + line + rest;
      assert blanks == [blanks[0]] + blanks[1..];
      if blanks[0] != '\n' {
        FirstLineLen(blanks[1..], line, rest);
      }
    }
  }

  lemma OneBlankLine(buffer: string, blanks: string, more: string)
    requires AllSpace(buffer) && AllSpace(blanks) && 0 < LineLen(blanks + more) <= |blanks|
    ensures var n := LineLen(blanks + more);
      NextLine(buffer, blanks + more) == NextLine(buffer + blanks[..n], blanks[n..] + more)
  {
    var input, n := blanks + more, LineLen(blanks + more);
    assert input[..n] == blanks[..n] && input[n..] == blanks[n..] + more;
    BlankTrims(buffer + blanks[..n]);
  }

  lemma BlanksThenLine(buffer: string, blanks: string, line: string, rest: string)
    requires AllSpace(buffer) && AllSpace(blanks) && line != [] && !IsSpace(line[0])
    requires LineLen(blanks + line + rest) == |blanks| + |line|
    ensures NextLine(buffer, blanks + line + rest) == Some((buffer + blanks + line, rest))
  {
    var input, n := blanks + line + rest, |blanks| + |line|;
    assert input[..n] == blanks + line && input[n..] == rest;
    assert buffer + (blanks + line) == (buffer + blanks) + line;
    TrimSkip(buffer + blanks, line);
  }

  /** Reading skips blank lines: they pile up in the buffer in front of the next line. */
  lemma {:induction false} SkipsBlank(buffer: string, blanks: string, line: string, rest: string)
    requires AllSpace(buffer) && AllSpace(blanks) && OneLine(line) && !IsSpace(line[0])
    ensures NextLine(buffer, blanks + line + rest) == Some((buffer + blanks + line, rest))
    decreases |blanks|
  {
    FirstLineLen(blanks, line, rest);
    if '\n' in blanks {
      var more := line + rest;
      assert blanks + line + rest == blanks + more;
      var n := LineLen(blanks + more);
      OneBlankLine(buffer, blanks, more);
      assert blanks[n..] + more == blanks[n..] + line + rest;
      SkipsBlank(buffer + blanks[..n], blanks[n..], line, rest);
      assert buffer + blanks[..n] + blanks[n..] == buffer + blanks;
    } else {
      BlanksThenLine(buffer, blanks, line, rest);
    }
  }

  lemma BlanksBefore(blanks: string, ts: seq<string>, rest: string)
    requires AllSpace(blanks) && Tokens(ts)
    ensures NextLine("", blanks + Line(ts) + rest) == Some((blanks + Line(ts), rest))
    ensures Segs(blanks + Line(ts)) == ts && Trim(blanks + Line(ts)) == Trim(Line(ts))
  {
    LineIsOne(ts);
    SkipsBlank("", blanks, Line(ts), rest);
    assert "" + blanks + Line(ts) == blanks + Line(ts);
    SegsLine(ts);
    SegsSkip(blanks, Line(ts));
    TrimSkip(blanks, Line(ts));
  }

  /** Blank lines before a printed line change nothing for any reader: the line's
      tokens are read, and both are consumed. */
  lemma BlankLinesIgnored(blanks: string, ts: seq<string>, rest: string)
    requires AllSpace(blanks) && Tokens(ts)
    ensures FromRead(blanks + Line(ts) + rest) == FromRead(Line(ts) + rest)
    ensures ReadCall(blanks + Line(ts) + rest) == ReadCall(Line(ts) + rest)
    ensures forall acc :: ReadEntries(blanks + Line(ts) + rest, acc) == ReadEntries(Line(ts) + rest, acc)
  {
    BlanksBefore(blanks, ts, rest);
    NextPrinted(ts, rest);
  }

  // ----- the reader and the writer as they run -----

  class Reader {
    var input: string
    var buffer: string

    constructor (input: string)
      ensures this.input == input
    {
      this.input := input;
      buffer := "";
    }

    /** Fills the buffer with the next line that is not blank; false at the end of input. */
    method ReadNextLine() returns (ok: bool)
      modifies this
      ensures if ok then NextLine("", old(input)) == Some((buffer, input)) else NextLine("", old(input)) == None
    {
      buffer := "";
      while input != []
        invariant NextLine(buffer, input) == NextLine("", old(input))
        decreases |input|
      {
        var n := LineLen(input);
        buffer := buffer + input[..n];
        input := input[n..];
        if Trim(buffer) != [] {
          return true;
        }
      }
      return false;
    }

    method ReadScanEntries() returns (r: Read<seq<(Key, Value)>>)
      modifies this
      ensures r == ReadEntries(old(input), []) && (r.Ok? ==> input == r.rest)
    {
      var entries: seq<(Key, Value)> := [];
      while true
        invariant ReadEntries(input, entries) == ReadEntries(old(input), [])
        decreases |input|
      {
        var ok := ReadNextLine();
        if !ok {
          return Starved;
        }
        if Trim(buffer) == "SCAN END" {
          return Ok(entries, input);
        }
        var segs := Segs(buffer);
        if |segs| < 2 {
          return Malformed;
        }
        entries := entries + [(segs[0], segs[1])];
      }
    }

    /** KvResp::from_read, leaving the unread input in the reader. */
    method ReadResp() returns (r: Read<Resp>)
      modifies this
      ensures r == FromRead(old(input)) && (r.Ok? ==> input == r.rest)
    {
      var ok := ReadNextLine();
      if !ok {
        return Starved;
      }
      var segs := Segs(buffer);
      if |segs| >= 4 && segs[0] == "SCAN" && segs[3] == "BEGIN" {
        var entries := ReadScanEntries();
        match entries {
          case Ok(es, rest) => r := Ok(ScanResp(segs[1], segs[2], es), rest);
          case Malformed => r := Malformed;
          case Starved => r := Starved;
        }
      } else {
        r := Interpret(segs, input);
      }
    }
  }

  lemma {:induction false} PrintEntriesSplit(entries: seq<(Key, Value)>, i: nat)
    requires i < |entries|
    ensures PrintEntries(entries[i..]) == "  " + Line([entries[i].0, entries[i].1]) + PrintEntries(entries[i + 1..])
  {
    assert entries[i..][1..] == entries[i + 1..];
  }

  /** write_response: one line, or a frame with one line per entry. */
  method WriteResponse(resp: Resp, out: string) returns (out': string)
    ensures out' == out + PrintResp(resp)
    ensures resp.PutResp? ==> out' == out + ("PUT " + resp.key + " " + (if resp.found then "found" else "not_found") + "\n")
    ensures resp.DeleteResp? ==> out' == out + ("DELETE " + resp.key + " " + (if resp.found then "found" else "not_found") + "\n")
  {
    match resp
    case ScanResp(a, b, entries) =>
      out' := out + Line(["SCAN", a, b, "BEGIN"]);
      assert entries[0..] == entries;
      for i := 0 to |entries|
        invariant out' + PrintEntries(entries[i..]) == out + PrintResp(resp)
      {
        PrintEntriesSplit(entries, i);
        out' := out' + "  " + Line([entries[i].0, entries[i].1]);
      }
      out' := out' + Line(["SCAN", "END"]);
    case PutResp(k, found) =>
      FoundText(k, found);
      out' := out + PrintResp(resp);
    case DeleteResp(k, found) =>
      FoundText(k, found);
      out' := out + PrintResp(resp);
    case _ => out' := out + PrintResp(resp);
  }
}
