/** Reading the output of `git cat-file --batch`. */
module GitBatch {
  import opened ByteStrings
  import opened Decimal
  import opened Numbers
  import opened Text
  import opened Wrappers

  const NEWLINE: byte := 10

  datatype BatchError =
    | NoHeader(path: string)
    | NoSuchFile(path: string)
    | InvalidSize(path: string)
    | Truncated(path: string)

  /** `indexOf`: the first position of a byte at or after `from`. */
  function IndexOf(b: Bytes, x: byte, from: nat): (r: Option<nat>)
    requires from <= |b|
    ensures r.Some? ==> from <= r.value < |b|
    decreases |b| - from
  {
    if from == |b| then None else if b[from] == x then Some(from) else IndexOf(b, x, from + 1)
  }

  /** The first place from `from` on that holds `x`, or none when no place does. */
  lemma {:induction false} IndexOfIsFirst(b: Bytes, x: byte, from: nat, at: nat)
    requires from <= at <= |b| && (forall i :: from <= i < at ==> b[i] != x) && (at < |b| ==> b[at] == x)
    ensures IndexOf(b, x, from) == if at < |b| then Some(at) else None
    decreases |b| - from
  {
    if from < at { IndexOfIsFirst(b, x, from + 1, at); }
  }

  /** The size a header announces: its third word, when that is a safe non-negative integer. */
  function SizeIn(header: string): Option<nat> {
    var words := Split(header, ' ');
    var size := if |words| > 2 then ParseInt(words[2]) else None;
    if size.Some? && 0 <= size.value <= MAX_SAFE_INTEGER then Some(size.value) else None
  }

  datatype Part = Part(content: Bytes, next: nat)

  /** One header and body at `offset`, and where the next header starts. */
  function ReadOne(decode: Bytes -> string, output: Bytes, offset: nat, path: string): (r: Result<Part, BatchError>)
    requires offset <= |output|
    ensures r.Ok? ==> offset < r.value.next <= |output|
  {
    match IndexOf(output, NEWLINE, offset)
    case None => Err(NoHeader(path))
    case Some(headerEnd) =>
      var header := decode(output[offset..headerEnd]);
      if EndsWith(header, " missing") then Err(NoSuchFile(path))
      else match SizeIn(header)
        case None => Err(InvalidSize(path))
        case Some(size) =>
          var contentStart := headerEnd + 1;
          var contentEnd := contentStart + size;
          if contentEnd >= |output| || output[contentEnd] != NEWLINE then Err(Truncated(path))
          else Ok(Part(output[contentStart..contentEnd], contentEnd + 1))
  }

  /** The text of every path, read in turn from `offset` on top of `contents`. */
  function ReadAll(decode: Bytes -> string, output: Bytes, offset: nat, paths: seq<string>,
                   contents: map<string, string>):
    Result<map<string, string>, BatchError>
    requires offset <= |output|
    decreases |paths|
  {
    if paths == [] then Ok(contents)
    else match ReadOne(decode, output, offset, paths[0])
      case Err(e) => Err(e)
      case Ok(part) => ReadAll(decode, output, part.next, paths[1..], contents[paths[0] := decode(part.content)])
  }

  lemma ReadAllStep(decode: Bytes -> string, output: Bytes, offset: nat, path: string, rest: seq<string>,
                    contents: map<string, string>)
    requires offset <= |output|
    ensures ReadAll(decode, output, offset, [path] + rest, contents)
         == match ReadOne(decode, output, offset, path)
            case Err(e) => Err(e)
            case Ok(part) => ReadAll(decode, output, part.next, rest, contents[path := decode(part.content)])
  {
    hide ReadOne;
    assert ([path] + rest)[1..] == rest;
  }

  lemma ReadAllEnd(decode: Bytes -> string, output: Bytes, offset: nat, contents: map<string, string>)
    requires offset <= |output|
    ensures ReadAll(decode, output, offset, [], contents) == Ok(contents)
  {
  }

  /** Read the batch output with a moving offset. */
  method ReadGitFiles(decode: Bytes -> string, output: Bytes, paths: seq<string>)
    returns (r: Result<map<string, string>, BatchError>)
    ensures r == ReadAll(decode, output, 0, paths, map[])
  {
    hide SizeIn, EndsWith, IndexOf, ReadAll;
    var contents: map<string, string> := map[];
    var offset := 0;
    for k := 0 to |paths|
      invariant offset <= |output|
      invariant ReadAll(decode, output, offset, paths[k..], contents) == ReadAll(decode, output, 0, paths, map[])
    {
      var path := paths[k];
      assert paths[k..] == [path] + paths[k + 1..];
      ReadAllStep(decode, output, offset, path, paths[k + 1..], contents);
      var headerEnd := IndexOf(output, NEWLINE, offset);
      if headerEnd.None? {
        return Err(NoHeader(path));
      }
      var header := decode(output[offset..headerEnd.value]);
      if EndsWith(header, " missing") {
        return Err(NoSuchFile(path));
      }
      var size := SizeIn(header);
      if size.None? {
        return Err(InvalidSize(path));
      }
      var contentStart := headerEnd.value + 1;
      var contentEnd := contentStart + size.value;
      if contentEnd >= |output| || output[contentEnd] != NEWLINE {
        return Err(Truncated(path));
      }
      contents := contents[path := decode(output[contentStart..contentEnd])];
      offset := contentEnd + 1;
    }
    ReadAllEnd(decode, output, offset, contents);
    r := Ok(contents);
  }

  // ---------- What git writes ----------

  /** What git writes for one object: a header line and a body, or one line saying that there is none. */
  datatype Reply = Present(id: string, kind: string, content: Bytes) | Absent(line: Bytes)

  /** UTF-8 decoding reads ASCII bytes as the characters they stand for. */
  ghost predicate DecodesAscii(decode: Bytes -> string) {
    forall s: string :: IsAscii(s) ==> decode(Ascii(s)) == s
  }

  ghost predicate IsWord(s: string) {
    IsAscii(s) && ' ' !in s && '\n' !in s
  }

  ghost predicate WellFormed(decode: Bytes -> string, reply: Reply) {
    match reply
    case Present(id, kind, content) => IsWord(id) && IsWord(kind) && |content| <= MAX_SAFE_INTEGER
    case Absent(line) => NEWLINE !in line && EndsWith(decode(line), " missing")
  }

  function HeaderText(id: string, kind: string, size: nat): string {
    id + " " + kind + " " + Numeral(size)
  }

  lemma HeaderAscii(id: string, kind: string, size: nat)
    requires IsWord(id) && IsWord(kind)
    ensures IsAscii(HeaderText(id, kind, size)) && '\n' !in HeaderText(id, kind, size)
  {
    NumeralAscii(size);
    assert forall c :: c in Numeral(size) ==> IsDigit(c);
  }

  ghost function Written(reply: Reply): Bytes
    requires reply.Present? ==> IsWord(reply.id) && IsWord(reply.kind)
  {
    match reply
    case Present(id, kind, content) =>
      HeaderAscii(id, kind, |content|);
      Ascii(HeaderText(id, kind, |content|)) + [NEWLINE] + content + [NEWLINE]
    case Absent(line) => line + [NEWLINE]
  }

  ghost function Batch(decode: Bytes -> string, replies: seq<Reply>): Bytes
    requires forall r :: r in replies ==> WellFormed(decode, r)
  {
    if replies == [] then []
    else
      assert WellFormed(decode, replies[0]);
      Written(replies[0]) + Batch(decode, replies[1..])
  }

  /** What reading the replies to `paths` should give: every content, or the first absent path. */
  ghost function Expected(decode: Bytes -> string, replies: seq<Reply>, paths: seq<string>,
                          contents: map<string, string>):
    Result<map<string, string>, BatchError>
    requires |replies| == |paths|
  {
    if paths == [] then Ok(contents)
    else match replies[0]
      case Absent(_) => Err(NoSuchFile(paths[0]))
      case Present(_, _, content) => Expected(decode, replies[1..], paths[1..], contents[paths[0] := decode(content)])
  }

  lemma HeaderWords(id: string, kind: string, n: string)
    requires ' ' !in id && ' ' !in kind && ' ' !in n
    ensures Split(id + " " + kind + " " + n, ' ') == [id, kind, n]
  {
    SplitNone(n, ' ');
    SplitAt(kind, n, ' ');
    SplitAt(id, kind + " " + n, ' ');
    assert id + " " + kind + " " + n == id + [' '] + (kind + " " + n);
    assert kind + [' '] + n == kind + " " + n;
  }

  lemma HeaderSize(id: string, kind: string, size: nat)
    requires IsWord(id) && IsWord(kind) && size <= MAX_SAFE_INTEGER
    ensures SizeIn(HeaderText(id, kind, size)) == Some(size)
  {
    hide Split, ParseInt, Numeral, IsAscii;
    var n := Numeral(size);
    assert ' ' !in n;
    HeaderWords(id, kind, n);
    assert n + [] == n;
    ParseNumeral(size, []);
  }

  lemma HeaderNotMissing(id: string, kind: string, size: nat)
    ensures !EndsWith(HeaderText(id, kind, size), " missing")
  {
    hide Numeral;
    var n, text := Numeral(size), HeaderText(id, kind, size);
    assert n[|n| - 1] in n && text[|text| - 1] == n[|n| - 1];
    assert " missing"[7] == 'g';
    assert text[|text| - 1] != " missing"[7];
  }

  lemma AsciiNewline(s: string)
    requires IsAscii(s) && '\n' !in s
    ensures NEWLINE !in Ascii(s)
  {
    assert forall i :: 0 <= i < |s| ==> s[i] in s;
  }

  /** The output holds, at `from`, a line without its end, the line end, and `after`. */
  ghost predicate LineAt(output: Bytes, from: nat, line: Bytes, after: Bytes) {
    && NEWLINE !in line && from + |line| < |output|
    && output[from..from + |line|] == line && output[from + |line|] == NEWLINE && output[from + |line| + 1..] == after
  }

  lemma LinePlaced(before: Bytes, line: Bytes, text: Bytes, after: Bytes)
    requires text == line + [NEWLINE] + after && NEWLINE !in line
    ensures LineAt(before + text, |before|, line, after)
  {
    var s := before + text;
    assert s[|before|..] == text;
    assert s[|before|..|before| + |line|] == text[..|line|];
    assert s[|before| + |line| + 1..] == text[|line| + 1..];
  }

  lemma LineEnd(output: Bytes, from: nat, line: Bytes, after: Bytes)
    requires LineAt(output, from, line, after)
    ensures from <= |output| && IndexOf(output, NEWLINE, from) == Some(from + |line|)
  {
    forall i | from <= i < from + |line| ensures output[i] != NEWLINE {
      assert output[i] == line[i - from];
    }
    IndexOfIsFirst(output, NEWLINE, from, from + |line|);
  }

  lemma AbsentReadsBack(decode: Bytes -> string, output: Bytes, from: nat, line: Bytes, rest: Bytes, path: string)
    requires LineAt(output, from, line, rest) && EndsWith(decode(line), " missing")
    ensures from <= |output| && ReadOne(decode, output, from, path) == Err(NoSuchFile(path))
  {
    hide IndexOf, EndsWith, SizeIn;
    LineEnd(output, from, line, rest);
  }

  lemma PresentReadsBack(decode: Bytes -> string, output: Bytes, from: nat, line: Bytes, content: Bytes, rest: Bytes,
                         path: string)
    requires LineAt(output, from, line, content + [NEWLINE] + rest)
    requires !EndsWith(decode(line), " missing") && SizeIn(decode(line)) == Some(|content|)
    ensures from <= |output|
    ensures ReadOne(decode, output, from, path) == Ok(Part(content, from + |line| + 1 + |content| + 1))
  {
    hide IndexOf, EndsWith, SizeIn;
    LineEnd(output, from, line, content + [NEWLINE] + rest);
    var start := from + |line| + 1;
    assert output[start..][|content|] == NEWLINE;
    assert output[start..start + |content|] == output[start..][..|content|] == content;
  }

  lemma TextSplits(line: Bytes, content: Bytes, rest: Bytes)
    ensures line + [NEWLINE] + content + [NEWLINE] + rest == line + [NEWLINE] + (content + [NEWLINE] + rest)
  {
  }

  lemma WrittenPresent(decode: Bytes -> string, before: Bytes, reply: Reply, rest: Bytes) returns (line: Bytes)
    requires DecodesAscii(decode) && WellFormed(decode, reply) && reply.Present?
    ensures LineAt(before + (Written(reply) + rest), |before|, line, reply.content + [NEWLINE] + rest)
    ensures !EndsWith(decode(line), " missing") && SizeIn(decode(line)) == Some(|reply.content|)
    ensures |Written(reply)| == |line| + 1 + |reply.content| + 1
  {
    var size := |reply.content|;
    hide LineAt, SizeIn, EndsWith;
    HeaderAscii(reply.id, reply.kind, size);
    HeaderSize(reply.id, reply.kind, size);
    HeaderNotMissing(reply.id, reply.kind, size);
    AsciiNewline(HeaderText(reply.id, reply.kind, size));
    line := Ascii(HeaderText(reply.id, reply.kind, size));
    TextSplits(line, reply.content, rest);
    LinePlaced(before, line, Written(reply) + rest, reply.content + [NEWLINE] + rest);
  }

  /** One written object reads back, and the next read starts exactly where it ends. */
  lemma OneReadsBack(decode: Bytes -> string, before: Bytes, reply: Reply, rest: Bytes, path: string)
    requires DecodesAscii(decode) && WellFormed(decode, reply)
    ensures ReadOne(decode, before + (Written(reply) + rest), |before|, path)
         == match reply
            case Present(_, _, content) => Ok(Part(content, |before| + |Written(reply)|))
            case Absent(_) => Err(NoSuchFile(path))
  {
    hide ReadOne, SizeIn, EndsWith, LineAt;
    var text := Written(reply) + rest;
    match reply
    case Absent(line) =>
      LinePlaced(before, line, text, rest);
      AbsentReadsBack(decode, before + text, |before|, line, rest, path);
    case Present(_, _, content) =>
      hide Written, DecodesAscii;
      var line := WrittenPresent(decode, before, reply, rest);
      PresentReadsBack(decode, before + text, |before|, line, content, rest, path);
  }

  /** Reading inverts writing, whatever the contents hold and whatever surrounds the batch. */
  lemma {:induction false} BatchReadsBack(decode: Bytes -> string, before: Bytes, replies: seq<Reply>,
                                          paths: seq<string>, contents: map<string, string>, rest: Bytes)
    requires DecodesAscii(decode) && |replies| == |paths| && forall r :: r in replies ==> WellFormed(decode, r)
    ensures ReadAll(decode, before + (Batch(decode, replies) + rest), |before|, paths, contents)
         == Expected(decode, replies, paths, contents)
    decreases |paths|
  {
    hide ReadOne, Written, DecodesAscii;
    if paths != [] {
      assert replies[0] in replies;
      var first, others := Written(replies[0]), Batch(decode, replies[1..]) + rest;
      OneReadsBack(decode, before, replies[0], others, paths[0]);
      assert before + (Batch(decode, replies) + rest) == before + (first + others) == (before + first) + others;
      if replies[0].Present? {
        BatchReadsBack(decode, before + first, replies[1..], paths[1..],
                       contents[paths[0] := decode(replies[0].content)], rest);
      }
    }
  }

  /** A cut inside the header leaves no line end. */
  lemma LineCut(decode: Bytes -> string, before: Bytes, line: Bytes, path: string)
    requires NEWLINE !in line
    ensures ReadOne(decode, before + line, |before|, path) == Err(NoHeader(path))
  {
    var cut := before + line;
    assert forall i :: |before| <= i < |cut| ==> cut[i] == line[i - |before|];
    IndexOfIsFirst(cut, NEWLINE, |before|, |cut|);
  }

  /** A cut inside the body, or just before its closing line end, is seen from the announced size. */
  lemma BodyCut(decode: Bytes -> string, output: Bytes, from: nat, line: Bytes, body: Bytes, some: Bytes, path: string)
    requires LineAt(output, from, line, some) && some < body
    requires EndsWith(decode(line), " missing") || SizeIn(decode(line)) == Some(|body| - 1)
    ensures from <= |output| && ReadOne(decode, output, from, path).Err?
  {
    hide IndexOf, SizeIn, EndsWith;
    LineEnd(output, from, line, some);
  }

  lemma Header(decode: Bytes -> string, reply: Reply) returns (line: Bytes, body: Bytes)
    requires DecodesAscii(decode) && WellFormed(decode, reply)
    ensures Written(reply) == line + [NEWLINE] + body && NEWLINE !in line
    ensures reply.Absent? ==> EndsWith(decode(line), " missing") && body == []
    ensures reply.Present? ==> SizeIn(decode(line)) == Some(|body| - 1)
  {
    hide SizeIn, EndsWith;
    match reply
    case Absent(l) => line, body := l, [];
    case Present(id, kind, content) =>
      HeaderAscii(id, kind, |content|);
      HeaderSize(id, kind, |content|);
      AsciiNewline(HeaderText(id, kind, |content|));
      line, body := Ascii(HeaderText(id, kind, |content|)), content + [NEWLINE];
  }

  lemma OneCutRefused(decode: Bytes -> string, before: Bytes, reply: Reply, n: nat, path: string)
    requires DecodesAscii(decode) && WellFormed(decode, reply) && n < |Written(reply)|
    ensures ReadOne(decode, before + Written(reply)[..n], |before|, path).Err?
  {
    hide SizeIn, EndsWith, DecodesAscii, ReadOne, Written, LineAt;
    var line, body: Bytes := Header(decode, reply);
    if n <= |line| {
      assert Written(reply)[..n] == line[..n];
      LineCut(decode, before, line[..n], path);
    } else {
      var some := body[..n - |line| - 1];
      assert Written(reply)[..n] == line + [NEWLINE] + some;
      LinePlaced(before, line, Written(reply)[..n], some);
      BodyCut(decode, before + Written(reply)[..n], |before|, line, body, some, path);
    }
  }

  /** A batch that is cut short anywhere is refused, never misread. */
  lemma {:induction false} CutBatchRefused(decode: Bytes -> string, before: Bytes, replies: seq<Reply>,
                                           paths: seq<string>, contents: map<string, string>, cut: Bytes)
    requires DecodesAscii(decode) && |replies| == |paths| && forall r :: r in replies ==> WellFormed(decode, r)
    requires cut < Batch(decode, replies)
    ensures ReadAll(decode, before + cut, |before|, paths, contents).Err?
    decreases |paths|
  {
    hide ReadOne, DecodesAscii, Written;
    assert paths != [] && replies[0] in replies;
    var first, others := Written(replies[0]), Batch(decode, replies[1..]);
    if |cut| < |first| {
      assert cut == first[..|cut|] by { assert (first + others)[..|cut|] == first[..|cut|]; }
      OneCutRefused(decode, before, replies[0], |cut|, paths[0]);
    } else {
      var left := cut[|first|..];
      assert cut == first + left by { assert (first + others)[..|first|] == first; }
      assert left < others by { assert (first + others)[|first|..] == others; }
      OneReadsBack(decode, before, replies[0], left, paths[0]);
      assert before + (first + left) == (before + first) + left;
      if replies[0].Present? {
        CutBatchRefused(decode, before + first, replies[1..], paths[1..],
                        contents[paths[0] := decode(replies[0].content)], left);
      }
    }
  }
}
