/**
 The length-framed file batch: the writer that frames files into one byte stream, and the reader
 that runs inside the sandbox and writes them out.
 */
module FileBatch {
  import opened Common
  import opened Decimal
  import opened Json
  import opened JsonReader
  import opened Utf8

  datatype Content = Text(text: string) | Binary(bytes: seq<byte>)

  datatype FileWrite = FileWrite(path: string, content: Content)

  const NEWLINE: byte := 10
  const READ_SIZE := 65536

  function ContentBytes(c: Content): seq<byte> {
    match c
    case Text(text) => Encode(text)
    case Binary(bytes) => bytes
  }

  // ----- the writer -----

  function Header(f: FileWrite): Json {
    Obj(Member("path", Str(f.path), Member("size", Num(Numeral(|ContentBytes(f.content)|)), NoMember)))
  }

  function Line(j: Json): seq<byte> {
    Encode(Print(j)) + [NEWLINE]
  }

  function Batch(files: seq<FileWrite>): seq<byte> {
    if files == [] then Line(Null)
    else Line(Header(files[0])) + ContentBytes(files[0].content) + Batch(files[1..])
  }

  method EncodeFileWriteBatch(files: seq<FileWrite>) returns (bytes: seq<byte>)
    ensures bytes == Batch(files)
  {
    hide Line, Header, ContentBytes;
    bytes := [];
    for i := 0 to |files|
      invariant bytes + Batch(files[i..]) == Batch(files)
    {
      var f := files[i];
      assert files[i..][1..] == files[i + 1..];
      ghost var rest := Batch(files[i + 1..]);
      var header, content := Line(Header(f)), ContentBytes(f.content);
      assert bytes + (header + content + rest) == bytes + header + content + rest;
      bytes := bytes + header;
      bytes := bytes + content;
    }
    bytes := bytes + Line(Null);
  }

  // ----- the reader -----

  /** One opened target and the bytes that reached it. */
  datatype Write = Write(path: string, bytes: seq<byte>)

  /** The writes performed, in order, and whether the reader accepted the whole stream. */
  datatype Read = Read(writes: seq<Write>, accepted: bool)

  /** `json.loads` on one line; `None` is an exception. */
  type Loads = seq<byte> -> Option<Json>

  function LineLength(s: seq<byte>): (n: nat)
    ensures n <= |s| && (n < |s| ==> s[n] == NEWLINE) && forall i | 0 <= i < n :: s[i] != NEWLINE
  {
    if s == [] || s[0] == NEWLINE then 0 else 1 + LineLength(s[1..])
  }

  /** A JSON number that Python loads as a non-negative `int`; minus zero is one. */
  function SizeOf(j: Json): Option<nat> {
    if !j.Num? then None
    else if Digits(j.text) then Some(DigitsValue(j.text))
    else if "-" <= j.text && Digits(j.text[1..]) && DigitsValue(j.text[1..]) == 0 then Some(0)
    else None
  }

  datatype Entry = End | Target(path: string, size: nat) | Invalid

  function EntryOf(j: Option<Json>): Entry {
    if j.None? then Invalid
    else match j.value
      case Null => End
      case Obj(members) =>
        var path, size := Get(members, "path"), Get(members, "size");
        if path.Some? && path.value.Str? && size.Some? && SizeOf(size.value).Some?
        then Target(path.value.s, SizeOf(size.value).value) else Invalid
      case _ => Invalid
  }

  function ReadBatch(s: seq<byte>, loads: Loads): Read
    decreases |s|
  {
    var n := LineLength(s);
    if n == |s| then Read([], false)
    else
      var rest := s[n + 1..];
      match EntryOf(loads(s[..n + 1]))
      case Invalid => Read([], false)
      case End => Read([], rest == [])
      case Target(path, size) =>
        if size > |rest| then Read([Write(path, rest)], false)
        else
          var more := ReadBatch(rest[size..], loads);
          Read([Write(path, rest[..size])] + more.writes, more.accepted)
  }

  /** The inner loop: copy `size` bytes in reads of at most 64 KiB, or as many as there are. */
  method CopyContents(contents: seq<byte>, size: nat) returns (target: seq<byte>, rest: seq<byte>, complete: bool)
    ensures complete <==> size <= |contents|
    ensures if complete then target == contents[..size] && rest == contents[size..] else target == contents
  {
    var remaining := size;
    target, rest := [], contents;
    while remaining > 0
      invariant 0 <= remaining <= size && size - remaining <= |contents|
      invariant target == contents[..size - remaining] && rest == contents[size - remaining..]
    {
      var chunk := rest[..Min(Min(remaining, READ_SIZE), |rest|)];
      if chunk == [] { return target, rest, false; }
      target := target + chunk;
      rest := rest[|chunk|..];
      remaining := remaining - |chunk|;
    }
    complete := true;
  }

  lemma ReadOne(s: seq<byte>, loads: Loads)
    ensures var n := LineLength(s);
            if n == |s| then ReadBatch(s, loads) == Read([], false)
            else
              match EntryOf(loads(s[..n + 1]))
              case Invalid => ReadBatch(s, loads) == Read([], false)
              case End => ReadBatch(s, loads) == Read([], s[n + 1..] == [])
              case Target(path, size) =>
                var rest := s[n + 1..];
                if size > |rest| then ReadBatch(s, loads) == Read([Write(path, rest)], false)
                else ReadBatch(s, loads) == After([Write(path, rest[..size])], ReadBatch(rest[size..], loads))
  {
  }

  method ReadStream(s: seq<byte>, loads: Loads) returns (r: Read)
    ensures r == ReadBatch(s, loads)
  {
    hide ReadBatch, EntryOf;
    var writes, rest := [], s;
    while true
      invariant ReadBatch(s, loads) == After(writes, ReadBatch(rest, loads))
      decreases |rest|
    {
      ReadOne(rest, loads);
      var n := LineLength(rest);
      if n == |rest| { return Read(writes, false); }
      var header, contents := rest[..n + 1], rest[n + 1..];
      match EntryOf(loads(header)) {
        case Invalid => return Read(writes, false);
        case End => return Read(writes, contents == []);
        case Target(path, size) =>
          var target, after, complete := CopyContents(contents, size);
          if !complete { return Read(writes + [Write(path, target)], false); }
          AfterConcat(writes, Write(path, target), ReadBatch(after, loads));
          writes, rest := writes + [Write(path, target)], after;
      }
    }
  }

  ghost function After(writes: seq<Write>, r: Read): Read {
    Read(writes + r.writes, r.accepted)
  }

  lemma AfterConcat(writes: seq<Write>, w: Write, r: Read)
    ensures After(writes + [w], r) == After(writes, Read([w] + r.writes, r.accepted))
  {
  }

  // ----- framing -----

  /** The loader reads back the two kinds of line the writer produces. */
  ghost predicate ReadsLines(loads: Loads) {
    loads(Line(Null)) == Some(Null) && forall f: FileWrite :: loads(Line(Header(f))) == Some(Header(f))
  }

  lemma {:induction false} EncodeHasNoNewline(s: string)
    requires '\n' !in s
    ensures NEWLINE !in Encode(s)
  {
    if s != "" {
      assert s[0] in s && forall c | c in s[1..] :: c in s;
      EncodeHasNoNewline(s[1..]);
      assert NEWLINE !in EncodeChar(s[0]);
    }
  }

  lemma ReadLine(j: Json, x: seq<byte>)
    requires NumbersOk(j)
    ensures LineLength(Line(j) + x) == |Line(j)| - 1
    ensures (Line(j) + x)[..|Line(j)|] == Line(j) && (Line(j) + x)[|Line(j)|..] == x
  {
    hide Encode, Print;
    PrintHasNoNewline(j);
    EncodeHasNoNewline(Print(j));
    var body, s := Encode(Print(j)), Line(j) + x;
    assert forall i | 0 <= i < |body| :: s[i] == body[i] && body[i] in body;
    assert s[|body|] == NEWLINE;
  }

  lemma HeaderReadsBack(f: FileWrite)
    ensures NumbersOk(Header(f))
    ensures EntryOf(Some(Header(f))) == Target(f.path, |ContentBytes(f.content)|)
  {
    var size := Num(Numeral(|ContentBytes(f.content)|));
    NumeralReadsBack(|ContentBytes(f.content)|);
    var m := Member("size", size, NoMember);
    assert forall i | 0 <= i < |size.text| :: NumberChar(size.text[i]);
    assert NumbersOk(size) && MemberNumbersOk(NoMember) && MemberNumbersOk(m);
    assert Get(NoMember, "path") == None && Get(m, "path") == None && Get(m, "size") == Some(size);
  }

  function Writes(files: seq<FileWrite>): seq<Write> {
    if files == [] then [] else [Write(files[0].path, ContentBytes(files[0].content))] + Writes(files[1..])
  }

  lemma ReadEnd(x: seq<byte>, loads: Loads)
    requires ReadsLines(loads)
    ensures ReadBatch(Line(Null) + x, loads) == Read([], x == [])
  {
    ReadLine(Null, x);
    assert loads(Line(Null)) == Some(Null);
  }

  /** Reading a header consumes exactly the frame it announces. */
  lemma ReadFrame(f: FileWrite, x: seq<byte>, loads: Loads)
    requires ReadsLines(loads)
    ensures var content := ContentBytes(f.content);
            ReadBatch(Line(Header(f)) + x, loads) ==
            if |x| < |content| then Read([Write(f.path, x)], false)
            else
              var more := ReadBatch(x[|content|..], loads);
              Read([Write(f.path, x[..|content|])] + more.writes, more.accepted)
  {
    hide ReadBatch, EntryOf, Line, Header;
    var line := Line(Header(f));
    HeaderReadsBack(f);
    ReadLine(Header(f), x);
    assert loads(line) == Some(Header(f));
    ReadOne(line + x, loads);
  }

  /** The target holds exactly the file: its bytes, or bytes that decode to its text. */
  ghost predicate Holds(w: Write, f: FileWrite) {
    && w.path == f.path
    && match f.content
       case Binary(bytes) => w.bytes == bytes
       case Text(text) => Run(Ground, w.bytes) == Out(Ground, text)
  }

  lemma {:induction false} WritesHold(files: seq<FileWrite>)
    ensures |Writes(files)| == |files| && forall i | 0 <= i < |files| :: Holds(Writes(files)[i], files[i])
  {
    if files != [] {
      WritesHold(files[1..]);
      if files[0].content.Text? { RunEncoded(files[0].content.text); }
    }
  }

  /** The reader performs exactly the writer's files, in order, and accepts iff nothing follows them. */
  lemma BatchReadsBack(files: seq<FileWrite>, x: seq<byte>, loads: Loads)
    requires ReadsLines(loads)
    ensures var r := ReadBatch(Batch(files) + x, loads);
            && (r.accepted <==> x == []) && |r.writes| == |files|
            && forall i | 0 <= i < |files| :: Holds(r.writes[i], files[i])
  {
    ReadInvertsWrite(files, x, loads);
    WritesHold(files);
  }

  lemma {:induction false} ReadInvertsWrite(files: seq<FileWrite>, x: seq<byte>, loads: Loads)
    requires ReadsLines(loads)
    ensures ReadBatch(Batch(files) + x, loads) == Read(Writes(files), x == [])
  {
    hide Line, Header, ReadBatch;
    if files == [] {
      ReadEnd(x, loads);
    } else {
      var f := files[0];
      var content, rest := ContentBytes(f.content), Batch(files[1..]);
      var after := content + (rest + x);
      assert Batch(files) + x == Line(Header(f)) + after;
      ReadFrame(f, after, loads);
      assert after[..|content|] == content && after[|content|..] == rest + x;
      ReadInvertsWrite(files[1..], x, loads);
    }
  }

  /** The writes are the first files, the last of them possibly cut short. */
  ghost predicate CutOff(writes: seq<Write>, files: seq<FileWrite>) {
    && |writes| <= |files|
    && forall i | 0 <= i < |writes| ::
         && writes[i].path == files[i].path
         && writes[i].bytes <= ContentBytes(files[i].content)
         && (i < |writes| - 1 ==> writes[i].bytes == ContentBytes(files[i].content))
  }

  lemma NoNewlineBeforeEnd(j: Json, k: nat)
    requires NumbersOk(j) && k < |Line(j)|
    ensures LineLength(Line(j)[..k]) == k
  {
    ReadLine(j, []);
    assert Line(j) + [] == Line(j);
    assert forall i | 0 <= i < k :: Line(j)[..k][i] == Line(j)[i] != NEWLINE;
  }

  /** A stream that breaks off anywhere is rejected, and has written nothing but a cut-off of the files. */
  lemma {:induction false} StrictPrefixIsRejected(files: seq<FileWrite>, k: nat, loads: Loads)
    requires ReadsLines(loads) && k < |Batch(files)|
    ensures var r := ReadBatch(Batch(files)[..k], loads); !r.accepted && CutOff(r.writes, files)
    decreases |files|, 1
  {
    hide Line, Header;
    var j := if files == [] then Null else Header(files[0]);
    if files != [] { HeaderReadsBack(files[0]); }
    var line := Line(j);
    var whole := Batch(files);
    if k < |line| {
      NoNewlineBeforeEnd(j, k);
      assert whole[..k] == line[..k];
    } else {
      CutInContents(files, k, loads);
    }
  }

  lemma {:induction false} CutInContents(files: seq<FileWrite>, k: nat, loads: Loads)
    requires ReadsLines(loads) && files != [] && |Line(Header(files[0]))| <= k < |Batch(files)|
    ensures var r := ReadBatch(Batch(files)[..k], loads); !r.accepted && CutOff(r.writes, files)
    decreases |files|, 0
  {
    hide Line, Header, ReadBatch;
    var f := files[0];
    var line, content, rest := Line(Header(f)), ContentBytes(f.content), Batch(files[1..]);
    var x := (content + rest)[..k - |line|];
    assert Batch(files)[..k] == line + x;
    ReadFrame(f, x, loads);
    if |x| >= |content| {
      assert x[..|content|] == content && x[|content|..] == rest[..|x| - |content|];
      StrictPrefixIsRejected(files[1..], |x| - |content|, loads);
      assert forall i | 0 <= i < |files| - 1 :: files[1..][i] == files[i + 1];
    }
  }

  lemma ExtensionIsRejected(files: seq<FileWrite>, x: seq<byte>, loads: Loads)
    requires ReadsLines(loads) && x != []
    ensures !ReadBatch(Batch(files) + x, loads).accepted
  {
    ReadInvertsWrite(files, x, loads);
  }

  // ----- a loader for the writer's lines -----

  /** The end marker, or a flat object. */
  function LoadText(text: string): Option<Json> {
    if text == "null" then Some(Null)
    else
      var members := ReadObject(text);
      if members.None? then None else Some(Obj(members.value))
  }

  function LoadLine(line: seq<byte>): Option<Json> {
    if line == [] || line[|line| - 1] != NEWLINE then None
    else LoadText(Run(Ground, line[..|line| - 1]).text)
  }

  lemma LoadNull()
    ensures LoadText(Print(Null)) == Some(Null)
  {
  }

  lemma LoadsLine(j: Json)
    requires LoadText(Print(j)) == Some(j)
    ensures LoadLine(Line(j)) == Some(j)
  {
    hide LoadText, Encode, Print, Run;
    RunEncoded(Print(j));
    assert Line(j)[..|Line(j)| - 1] == Encode(Print(j));
  }

  lemma HeaderIsFlat(f: FileWrite)
    ensures Header(f).Obj? && Header(f).members.Member? && Flat(Header(f).members) && Print(Header(f)) != "null"
  {
    hide Numeral;
    var size := Num(Numeral(|ContentBytes(f.content)|));
    assert FlatValue(size) && Flat(NoMember) && Flat(Member("size", size, NoMember));
    assert Print(Header(f))[0] == '{';
  }

  lemma LoadsHeader(f: FileWrite)
    ensures LoadLine(Line(Header(f))) == Some(Header(f))
  {
    HeaderIsFlat(f);
    hide LoadLine, Line, Print, ReadObject, Header;
    ReadObjectInverts(Header(f).members);
    LoadsLine(Header(f));
  }

  /** Scanning a line as JSON gives back its path and size, so the round trips have a reader to speak of. */
  lemma LineReaderInvertsWriter()
    ensures ReadsLines(LoadLine)
  {
    hide LoadText, LoadLine, Line, Header;
    LoadNull();
    LoadsLine(Null);
    forall f: FileWrite ensures LoadLine(Line(Header(f))) == Some(Header(f)) {
      LoadsHeader(f);
    }
  }
}
