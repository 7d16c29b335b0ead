/**
 Attribution of `Program data:` lines to the program that printed them. The
 runtime brackets each program's output with an `invoke` line and a terminator;
 the scanner keeps a stack of frames and takes the data lines printed while the
 gate is innermost. A transaction's log is a forest of invocations, flattened.
 */
module LogAttribution {
  import opened Collections
  import opened Words

  const PROGRAM_PREFIX: string := "Program "
  const PROGRAM_DATA_PREFIX: string := "Program data:"
  const INVOKE_TAIL: string := "invoke ["
  const SUCCESS_TAIL: string := "success"
  const FAILED_TAIL: string := "failed"

  // ----- text -----

  /** The characters with the Unicode property White_Space. */
  predicate IsWhitespace(c: char) {
    var n := c as int;
    || 0x09 <= n <= 0x0d || n == 0x20 || n == 0x85 || n == 0xa0 || n == 0x1680 || 0x2000 <= n <= 0x200a
    || n == 0x2028 || n == 0x2029 || n == 0x202f || n == 0x205f || n == 0x3000
  }

  function TrimStart(s: string): string {
    if s != [] && IsWhitespace(s[0]) then TrimStart(s[1..]) else s
  }

  function TrimEnd(s: string): string {
    if s != [] && IsWhitespace(s[|s| - 1]) then TrimEnd(s[..|s| - 1]) else s
  }

  function Trim(s: string): string {
    TrimEnd(TrimStart(s))
  }

  /** The text before and after the first `c`. */
  function SplitOnce(s: string, c: char): Option<(string, string)> {
    if s == [] then None
    else if s[0] == c then Some(([], s[1..]))
    else match SplitOnce(s[1..], c)
      case None => None
      case Some((a, b)) => Some(([s[0]] + a, b))
  }

  /** The program named by a `Program ` line, and the rest of the line. */
  function ParseProgram(line: string): Option<(string, string)> {
    if PROGRAM_PREFIX <= line then SplitOnce(line[|PROGRAM_PREFIX|..], ' ') else None
  }

  function ParseInvoke(line: string): Option<string> {
    match ParseProgram(line)
    case None => None
    case Some((who, tail)) => if INVOKE_TAIL <= tail then Some(who) else None
  }

  function ParseTerminator(line: string): Option<string> {
    match ParseProgram(line)
    case None => None
    case Some((who, tail)) => if tail == SUCCESS_TAIL || FAILED_TAIL <= tail then Some(who) else None
  }

  /** What a log line means to the scan; `Data` holds the trimmed line. */
  datatype Token = Opens(program: string) | Closes | Data(text: string) | Other

  function Tokenize(raw: string): Token {
    var line := Trim(raw);
    var invoked := ParseInvoke(line);
    if invoked.Some? then Opens(invoked.value)
    else if ParseTerminator(line).Some? then Closes
    else if PROGRAM_DATA_PREFIX <= line then Data(line)
    else Other
  }

  /** The line opens or closes a frame. */
  predicate FrameShaped(line: string) {
    Tokenize(line).Opens? || Tokenize(line).Closes?
  }

  // ----- the scan -----

  /** The stack of frames after one token. */
  function StackAfter(stack: seq<string>, t: Token): seq<string> {
    match t
    case Opens(program) => stack + [program]
    case Closes => if stack == [] then [] else stack[..|stack| - 1]
    case _ => stack
  }

  function Top(stack: seq<string>): Option<string> {
    if stack == [] then None else Some(stack[|stack| - 1])
  }

  /** What one token adds to the result. */
  function Emitted(running: Option<string>, t: Token, program: string): seq<string> {
    if t.Data? && running == Some(program) then [t.text] else []
  }

  function Attribute(tokens: seq<Token>, stack: seq<string>, program: string): seq<string>
    decreases |tokens|
  {
    if tokens == [] then []
    else Emitted(Top(stack), tokens[0], program) + Attribute(tokens[1..], StackAfter(stack, tokens[0]), program)
  }

  function StackAfterAll(stack: seq<string>, tokens: seq<Token>): seq<string>
    decreases |tokens|
  {
    if tokens == [] then stack else StackAfterAll(StackAfter(stack, tokens[0]), tokens[1..])
  }

  method GateProgramDataLines(logs: seq<string>, program: string) returns (out: seq<string>)
    ensures out == Attribute(Map(logs, Tokenize), [], program)
  {
    out := ScanLines(logs, Tokenize, program);
  }

  /** The loop, for any way of reading a line. */
  method ScanLines(logs: seq<string>, tokenize: string -> Token, program: string) returns (out: seq<string>)
    ensures out == Attribute(Map(logs, tokenize), [], program)
  {
    var stack: seq<string> := [];
    out := [];
    var i := 0;
    ghost var tokens := Map(logs, tokenize);
    while i < |logs|
      invariant 0 <= i <= |logs|
      invariant stack == StackAfterAll([], tokens[..i])
      invariant out == Attribute(tokens[..i], [], program)
    {
      NextToken(tokens, i, stack, program);
      match tokenize(logs[i]) {
        case Opens(who) =>
          stack := stack + [who];
        case Closes =>
          if stack != [] {
            stack := stack[..|stack| - 1];
          }
        case Data(line) =>
          if stack != [] && stack[|stack| - 1] == program {
            out := out + [line];
          }
        case Other =>
      }
      i := i + 1;
    }
    assert tokens[..i] == tokens;
  }

  lemma NextToken(tokens: seq<Token>, i: nat, stack: seq<string>, program: string)
    requires i < |tokens| && stack == StackAfterAll([], tokens[..i])
    ensures StackAfterAll([], tokens[..i + 1]) == StackAfter(stack, tokens[i])
    ensures Attribute(tokens[..i + 1], [], program)
            == Attribute(tokens[..i], [], program) + Emitted(Top(stack), tokens[i], program)
  {
    AttributeConcat(tokens[..i], [tokens[i]], [], program);
    TokenAlone(tokens[i], stack, program);
    assert tokens[..i + 1] == tokens[..i] + [tokens[i]];
  }

  // ----- what the runtime prints -----

  datatype Ending = Succeeded | FailedWith(message: string)

  /** A printed line, or a nested invocation with everything it printed. */
  datatype Entry = Line(text: string) | Call(program: string, depth: string, body: seq<Entry>, ending: Ending)

  function InvokeLine(program: string, depth: string): string {
    "Program " + program + " invoke [" + depth + "]"
  }

  function EndLine(program: string, ending: Ending): string {
    match ending
    case Succeeded => "Program " + program + " success"
    case FailedWith(message) => "Program " + program + " failed: " + message
  }

  /** The log lines of a forest of invocations, in print order. */
  function Flatten(entries: seq<Entry>): seq<string> {
    if entries == [] then [] else FlattenOne(entries[0]) + Flatten(entries[1..])
  }

  function FlattenOne(e: Entry): seq<string> {
    match e
    case Line(text) => [text]
    case Call(program, depth, body, ending) =>
      [InvokeLine(program, depth)] + Flatten(body) + [EndLine(program, ending)]
  }

  /** The data lines printed directly by `program`, in order, when `running` runs the forest. */
  function DataLinesOf(entries: seq<Entry>, running: Option<string>, program: string): seq<string> {
    if entries == [] then []
    else DataLinesOfOne(entries[0], running, program) + DataLinesOf(entries[1..], running, program)
  }

  function DataLinesOfOne(e: Entry, running: Option<string>, program: string): seq<string> {
    match e
    case Line(text) => if running == Some(program) && "Program data:" <= Trim(text) then [Trim(text)] else []
    case Call(who, _, body, _) => DataLinesOf(body, Some(who), program)
  }

  /** Program ids hold no space, and every printed line satisfies `p`. */
  predicate Lines(entries: seq<Entry>, p: string -> bool) {
    entries == [] || (LinesOne(entries[0], p) && Lines(entries[1..], p))
  }

  predicate LinesOne(e: Entry, p: string -> bool) {
    match e
    case Line(text) => p(text)
    case Call(program, _, body, _) => ' ' !in program && Lines(body, p)
  }

  predicate Harmless(text: string) {
    !FrameShaped(text)
  }

  // ----- parsing what the runtime prints -----

  lemma {:induction false} SplitAtFirst(a: string, c: char, b: string)
    requires c !in a
    ensures SplitOnce(a + [c] + b, c) == Some((a, b))
  {
    var s := a + [c] + b;
    if a == [] {
      assert s[1..] == b;
    } else {
      assert s[1..] == a[1..] + [c] + b;
      SplitAtFirst(a[1..], c, b);
      assert [s[0]] + a[1..] == a;
    }
  }

  /** Trimming the end never reaches back over a visible character. */
  lemma {:induction false} TrimEndKeeps(a: string, b: string)
    requires a != [] && !IsWhitespace(a[|a| - 1])
    ensures a <= TrimEnd(a + b) && TrimEnd(a + b)[|a|..] <= b
  {
    if b == [] {
      assert a + b == a;
    } else if IsWhitespace(b[|b| - 1]) {
      assert (a + b)[..|a + b| - 1] == a + b[..|b| - 1];
      TrimEndKeeps(a, b[..|b| - 1]);
    } else {
      assert (a + b)[|a|..] == b;
    }
  }

  lemma InvokeLineTokenizes(program: string, depth: string)
    requires ' ' !in program
    ensures Tokenize(InvokeLine(program, depth)) == Opens(program)
  {
    var line := InvokeLine(program, depth);
    var tail := INVOKE_TAIL + depth + "]";
    assert line[0] == 'P' && line[|line| - 1] == ']';
    assert Trim(line) == line;
    assert line[|PROGRAM_PREFIX|..] == program + [' '] + tail;
    SplitAtFirst(program, ' ', tail);
    assert INVOKE_TAIL <= tail;
  }

  lemma TerminatorTokenizes(program: string, tail: string)
    requires ' ' !in program && (tail == SUCCESS_TAIL || FAILED_TAIL <= tail)
    requires Trim(PROGRAM_PREFIX + program + " " + tail) == PROGRAM_PREFIX + program + " " + tail
    ensures Tokenize(PROGRAM_PREFIX + program + " " + tail) == Closes
  {
    var line := PROGRAM_PREFIX + program + " " + tail;
    assert line[|PROGRAM_PREFIX|..] == program + [' '] + tail;
    SplitAtFirst(program, ' ', tail);
    assert tail[0] == SUCCESS_TAIL[0] || tail[0] == FAILED_TAIL[0];
    assert tail[0] != INVOKE_TAIL[0];
  }

  /** Tokenizing sees only the trimmed line. */
  lemma {:induction false} TrimTwice(s: string)
    ensures Trim(Trim(s)) == Trim(s)
  {
    TrimStartShape(s);
    TrimEndShape(TrimStart(s));
    var t := Trim(s);
    if t != [] {
      assert t[0] == TrimStart(s)[0];
    }
  }

  lemma {:induction false} TrimStartShape(s: string)
    ensures TrimStart(s) == [] || !IsWhitespace(TrimStart(s)[0])
  {
    if s != [] && IsWhitespace(s[0]) {
      TrimStartShape(s[1..]);
    }
  }

  lemma {:induction false} TrimEndShape(s: string)
    ensures TrimEnd(s) <= s
    ensures TrimEnd(s) == [] || !IsWhitespace(TrimEnd(s)[|TrimEnd(s)| - 1])
  {
    if s != [] && IsWhitespace(s[|s| - 1]) {
      TrimEndShape(s[..|s| - 1]);
    }
  }

  lemma SuccessLineTokenizes(program: string)
    requires ' ' !in program
    ensures Tokenize(EndLine(program, Succeeded)) == Closes
  {
    var line := EndLine(program, Succeeded);
    assert line == PROGRAM_PREFIX + program + " " + SUCCESS_TAIL;
    assert line[0] == 'P' && line[|line| - 1] == 's' && Trim(line) == line;
    TerminatorTokenizes(program, SUCCESS_TAIL);
  }

  lemma FailureLineTokenizes(program: string, message: string)
    requires ' ' !in program
    ensures Tokenize(EndLine(program, FailedWith(message))) == Closes
  {
    var tail := FailureLineTrims(program, message);
    TrimTwice(EndLine(program, FailedWith(message)));
    TerminatorTokenizes(program, tail);
  }

  /** Trimming a failure line cuts at most the end of its message. */
  lemma FailureLineTrims(program: string, message: string) returns (tail: string)
    ensures FAILED_TAIL + ":" <= tail
    ensures Trim(EndLine(program, FailedWith(message))) == PROGRAM_PREFIX + program + " " + tail
  {
    var head := PROGRAM_PREFIX + program + " ";
    var visible := head + (FAILED_TAIL + ":");
    assert EndLine(program, FailedWith(message)) == visible + (" " + message);
    assert visible[0] == 'P' && visible[|visible| - 1] == ':';
    var cut := TrimKeepsFront(visible, " " + message);
    tail := FAILED_TAIL + ":" + cut;
    Joined(head, FAILED_TAIL + ":", cut);
  }

  lemma TrimKeepsFront(front: string, rest: string) returns (cut: string)
    requires front != [] && !IsWhitespace(front[0]) && !IsWhitespace(front[|front| - 1])
    ensures Trim(front + rest) == front + cut
  {
    assert TrimStart(front + rest) == front + rest;
    TrimEndKeeps(front, rest);
    cut := Trim(front + rest)[|front|..];
  }

  lemma Joined(a: string, b: string, c: string)
    ensures a + b + c == a + (b + c)
  {
  }

  lemma EndLineTokenizes(program: string, ending: Ending)
    requires ' ' !in program
    ensures Tokenize(EndLine(program, ending)) == Closes
  {
    match ending
    case Succeeded => SuccessLineTokenizes(program);
    case FailedWith(message) => FailureLineTokenizes(program, message);
  }

  // ----- the theorem -----

  lemma {:induction false} AttributeConcat(a: seq<Token>, b: seq<Token>, stack: seq<string>, program: string)
    ensures Attribute(a + b, stack, program)
            == Attribute(a, stack, program) + Attribute(b, StackAfterAll(stack, a), program)
    ensures StackAfterAll(stack, a + b) == StackAfterAll(StackAfterAll(stack, a), b)
    decreases |a|
  {
    if a == [] {
      assert a + b == b;
    } else {
      assert (a + b)[1..] == a[1..] + b;
      AttributeConcat(a[1..], b, StackAfter(stack, a[0]), program);
    }
  }

  lemma TokenAlone(t: Token, stack: seq<string>, program: string)
    ensures StackAfterAll(stack, [t]) == StackAfter(stack, t)
    ensures Attribute([t], stack, program) == Emitted(Top(stack), t, program)
  {
    assert [t][1..] == [];
  }

  /** Opening a frame, a stretch of log that restores the stack, and closing the frame. */
  lemma FrameIsTransparent(who: string, body: seq<Token>, stack: seq<string>, program: string)
    requires StackAfterAll(stack + [who], body) == stack + [who]
    ensures StackAfterAll(stack, [Opens(who)] + body + [Closes]) == stack
    ensures Attribute([Opens(who)] + body + [Closes], stack, program) == Attribute(body, stack + [who], program)
  {
    TokenAlone(Opens(who), stack, program);
    TokenAlone(Closes, stack + [who], program);
    AttributeConcat([Opens(who)], body, stack, program);
    AttributeConcat([Opens(who)] + body, [Closes], stack, program);
  }

  lemma MapConcat<T, U>(a: seq<T>, b: seq<T>, f: T -> U)
    ensures Map(a + b, f) == Map(a, f) + Map(b, f)
  {
  }

  lemma CallTokens(who: string, depth: string, body: seq<Entry>, ending: Ending)
    requires ' ' !in who
    ensures Map(FlattenOne(Call(who, depth, body, ending)), Tokenize)
            == [Opens(who)] + Map(Flatten(body), Tokenize) + [Closes]
  {
    var open, lines, close := InvokeLine(who, depth), Flatten(body), EndLine(who, ending);
    InvokeLineTokenizes(who, depth);
    EndLineTokenizes(who, ending);
    MapFrame(open, lines, close, Tokenize);
  }

  lemma MapFrame<T, U>(open: T, lines: seq<T>, close: T, f: T -> U)
    ensures Map([open] + lines + [close], f) == [f(open)] + Map(lines, f) + [f(close)]
  {
    MapConcat([open] + lines, [close], f);
    MapConcat([open], lines, f);
  }

  /** A well-nested forest leaves the stack as it found it and yields its own data lines. */
  lemma {:induction false} ForestIsTransparent(entries: seq<Entry>, stack: seq<string>, program: string)
    requires Lines(entries, Harmless)
    ensures StackAfterAll(stack, Map(Flatten(entries), Tokenize)) == stack
    ensures Attribute(Map(Flatten(entries), Tokenize), stack, program) == DataLinesOf(entries, Top(stack), program)
    decreases entries, 1
  {
    if entries != [] {
      var first, rest := FlattenOne(entries[0]), Flatten(entries[1..]);
      EntryIsTransparent(entries[0], stack, program);
      ForestIsTransparent(entries[1..], stack, program);
      MapConcat(first, rest, Tokenize);
      AttributeConcat(Map(first, Tokenize), Map(rest, Tokenize), stack, program);
    }
  }

  lemma {:induction false} EntryIsTransparent(e: Entry, stack: seq<string>, program: string)
    requires LinesOne(e, Harmless)
    ensures StackAfterAll(stack, Map(FlattenOne(e), Tokenize)) == stack
    ensures Attribute(Map(FlattenOne(e), Tokenize), stack, program) == DataLinesOfOne(e, Top(stack), program)
    decreases e, 0
  {
    match e
    case Line(text) =>
      assert Map([text], Tokenize) == [Tokenize(text)];
      TokenAlone(Tokenize(text), stack, program);
    case Call(who, depth, body, ending) =>
      CallTokens(who, depth, body, ending);
      ForestIsTransparent(body, stack + [who], program);
      FrameIsTransparent(who, Map(Flatten(body), Tokenize), stack, program);
  }

  /**
   Over the log of any well-nested forest whose printed lines are not
   frame-shaped, the scan returns exactly the data lines whose innermost
   program is the given one, in order.
   */
  lemma AttributionIsExact(entries: seq<Entry>, program: string)
    requires Lines(entries, Harmless)
    ensures Attribute(Map(Flatten(entries), Tokenize), [], program) == DataLinesOf(entries, None, program)
  {
    ForestIsTransparent(entries, [], program);
  }

  /** What a call with harmless brackets contributes when it runs first, at top level. */
  lemma CallEntry(program: string, body: seq<Entry>, rest: seq<Entry>)
    requires ' ' !in program
    ensures var entries := [Call(program, "1", body, Succeeded)] + rest;
            && Map(Flatten(entries), Tokenize)
               == [Opens(program)] + Map(Flatten(body), Tokenize) + [Closes] + Map(Flatten(rest), Tokenize)
            && DataLinesOf(entries, None, program)
               == DataLinesOf(body, Some(program), program) + DataLinesOf(rest, None, program)
  {
    var entries := [Call(program, "1", body, Succeeded)] + rest;
    assert entries[1..] == rest;
    CallTokens(program, "1", body, Succeeded);
    MapConcat(FlattenOne(entries[0]), Flatten(rest), Tokenize);
  }

  lemma OneLine(text: string, running: Option<string>, program: string)
    ensures Flatten([Line(text)]) == [text]
    ensures DataLinesOf([Line(text)], running, program) == DataLinesOfOne(Line(text), running, program)
  {
    assert [Line(text)][1..] == [];
  }

  lemma TwoLines(a: string, b: string, running: Option<string>, program: string)
    ensures Flatten([Line(a), Line(b)]) == [a, b]
    ensures DataLinesOf([Line(a), Line(b)], running, program)
            == DataLinesOfOne(Line(a), running, program) + DataLinesOfOne(Line(b), running, program)
  {
    assert [Line(a), Line(b)][1..] == [Line(b)];
    OneLine(b, running, program);
  }

  predicate Misattributed(entries: seq<Entry>, program: string) {
    Attribute(Map(Flatten(entries), Tokenize), [], program) != DataLinesOf(entries, None, program)
  }

  /** The two small forests that print only `x` and a data line `d`. */
  function OpenedTwice(x: string, d: string, program: string): seq<Entry> {
    [Call(program, "1", [Line(x)], Succeeded)] + [Line(d)]
  }

  function ClosedEarly(x: string, d: string, program: string): seq<Entry> {
    [Call(program, "1", [Line(x), Line(d)], Succeeded)] + []
  }

  /**
   The condition cannot be weakened line by line: any frame-shaped line `x`,
   such as `Program log: success`, printed by a program makes the scan differ
   from the true attribution on a forest that prints nothing but `x` and one
   data line `d`.
   */
  lemma FrameShapedLineMisattributes(x: string, d: string, program: string)
    requires FrameShaped(x) && Tokenize(d).Data? && ' ' !in program
    ensures Tokenize(x) == Opens(program) ==>
              Misattributed(OpenedTwice(x, d, program), program)
    ensures Tokenize(x) != Opens(program) ==>
              Misattributed(ClosedEarly(x, d, program), program)
  {
    if Tokenize(x) == Opens(program) {
      OpenedTwiceMisattributes(x, d, program);
    } else {
      ClosedEarlyMisattributes(x, d, program);
    }
  }

  lemma OpenedTwiceMisattributes(x: string, d: string, program: string)
    requires Tokenize(x) == Opens(program) && Tokenize(d).Data? && ' ' !in program
    ensures Misattributed(OpenedTwice(x, d, program), program)
  {
    OpenedTwiceIs(x, d, program);
    MisreadAfterOpen(program, Tokenize(x), Tokenize(d));
  }

  /** Its tokens, and what is truly the program's. */
  lemma OpenedTwiceIs(x: string, d: string, program: string)
    requires Tokenize(x).Opens? && ' ' !in program
    ensures Map(Flatten(OpenedTwice(x, d, program)), Tokenize) == [Opens(program), Tokenize(x), Closes, Tokenize(d)]
    ensures DataLinesOf(OpenedTwice(x, d, program), None, program) == DataLinesOfOne(Line(x), Some(program), program)
  {
    CallEntry(program, [Line(x)], [Line(d)]);
    OneLine(x, Some(program), program);
    OneLine(d, None, program);
    assert Map([x], Tokenize) == [Tokenize(x)] && Map([d], Tokenize) == [Tokenize(d)];
  }

  lemma ClosedEarlyMisattributes(x: string, d: string, program: string)
    requires FrameShaped(x) && Tokenize(x) != Opens(program) && Tokenize(d).Data? && ' ' !in program
    ensures Misattributed(ClosedEarly(x, d, program), program)
  {
    ClosedEarlyIs(x, d, program);
    MisreadAfterFrame(program, Tokenize(x), Tokenize(d));
  }

  lemma ClosedEarlyIs(x: string, d: string, program: string)
    requires FrameShaped(x) && Tokenize(d).Data? && ' ' !in program
    ensures Map(Flatten(ClosedEarly(x, d, program)), Tokenize) == [Opens(program), Tokenize(x), Tokenize(d), Closes]
    ensures DataLinesOf(ClosedEarly(x, d, program), None, program)
            == DataLinesOfOne(Line(x), Some(program), program) + DataLinesOfOne(Line(d), Some(program), program)
  {
    CallEntry(program, [Line(x), Line(d)], []);
    TwoLines(x, d, Some(program), program);
    assert Map([x, d], Tokenize) == [Tokenize(x), Tokenize(d)] && Map([], Tokenize) == [];
  }

  /** Four tokens, one after the other, with the stacks between them. */
  lemma FourTokens(a: Token, b: Token, c: Token, d: Token, s1: seq<string>, s2: seq<string>, s3: seq<string>,
                   program: string)
    requires s1 == StackAfter([], a) && s2 == StackAfter(s1, b) && s3 == StackAfter(s2, c)
    ensures Attribute([a, b, c, d], [], program)
            == Emitted(Top([]), a, program)
               + (Emitted(Top(s1), b, program) + (Emitted(Top(s2), c, program) + Emitted(Top(s3), d, program)))
  {
    OneMore(a, [b, c, d], [], program);
    OneMore(b, [c, d], s1, program);
    OneMore(c, [d], s2, program);
    TokenAlone(d, s3, program);
  }

  lemma OneMore(t: Token, rest: seq<Token>, stack: seq<string>, program: string)
    ensures Attribute([t] + rest, stack, program)
            == Emitted(Top(stack), t, program) + Attribute(rest, StackAfter(stack, t), program)
  {
    assert ([t] + rest)[1..] == rest;
  }

  lemma MisreadAfterOpen(program: string, t: Token, d: Token)
    requires t == Opens(program) && d.Data?
    ensures Attribute([Opens(program), t, Closes, d], [], program) == [d.text]
  {
    assert [program, program][..1] == [program];
    FourTokens(Opens(program), t, Closes, d, [program], [program, program], [program], program);
  }

  lemma MisreadAfterFrame(program: string, t: Token, d: Token)
    requires (t.Opens? && t.program != program) || t.Closes?
    requires d.Data?
    ensures Attribute([Opens(program), t, d, Closes], [], program) == []
  {
    var s := StackAfter([program], t);
    FourTokens(Opens(program), t, d, Closes, [program], s, s, program);
  }

  /** `Program log: success` closes a frame. */
  lemma LoggedSuccessIsFrameShaped()
    ensures FrameShaped("Program log: success")
  {
    var line := PROGRAM_PREFIX + "log:" + " " + SUCCESS_TAIL;
    assert line == "Program log: success";
    assert line[0] == 'P' && line[|line| - 1] == 's' && Trim(line) == line;
    TerminatorTokenizes("log:", SUCCESS_TAIL);
  }
}
