/** The events of a sandbox command: how they are written, and how the collector reads them. */
module SseEvents {
  import opened Common
  import opened Json
  import opened JsonReader
  import opened SseCollector
  import Text
  import Utf8

  // ----- reading -----

  /** The members the collector looks at; `data` is none unless a string, `exitCode` unless an integer. */
  datatype Fields = Fields(kind: Option<string>, data: Option<string>, exitCode: Option<int>)

  /** `None` is a text that is not JSON, or not an object. */
  function Classify(fields: Option<Fields>): Event {
    if fields.None? then Malformed
    else
      var f := fields.value;
      if f.kind == Some("stdout") || f.kind == Some("stderr") then
        if f.data.None? then Malformed
        else if f.kind == Some("stdout") then Stdout(f.data.value)
        else Stderr(f.data.value)
      else if f.kind == Some("complete") then
        if f.exitCode.None? then Malformed else Complete(f.exitCode.value == 0)
      else if f.kind == Some("error") then Failure
      else Ignored
  }

  function ReadText(j: Option<Json>): Option<string> {
    if j.Some? && j.value.Str? then Some(j.value.s) else None
  }

  /** A reader for flat objects in the place of `JSON.parse`. */
  function ReadFields(text: string): Option<Fields> {
    var m := ReadObject(text);
    if m.None? then None
    else
      Some(Fields(ReadText(Get(m.value, "type")), ReadText(Get(m.value, "data")),
                  ReadInteger(Get(m.value, "exitCode"))))
  }

  function ReadEvent(text: string): Event {
    Classify(ReadFields(text))
  }

  // ----- writing -----

  /** What a sandbox has to say. */
  datatype Message = ToStdout(data: string) | ToStderr(data: string) | Exited(code: int) | Errored

  function MembersOf(m: Message): Members {
    match m
    case ToStdout(data) => Member("type", Str("stdout"), Member("data", Str(data), NoMember))
    case ToStderr(data) => Member("type", Str("stderr"), Member("data", Str(data), NoMember))
    case Exited(code) => Member("type", Str("complete"), Member("exitCode", Num(Integer(code)), NoMember))
    case Errored => Member("type", Str("error"), NoMember)
  }

  function PayloadOf(m: Message): string {
    Print(Obj(MembersOf(m)))
  }

  function Meant(m: Message): Event {
    match m
    case ToStdout(data) => Stdout(data)
    case ToStderr(data) => Stderr(data)
    case Exited(code) => Complete(code == 0)
    case Errored => Failure
  }

  lemma KeysDiffer()
    ensures "type" != "data" && "type" != "exitCode" && "data" != "exitCode"
    ensures "stdout" != "stderr" && "stdout" != "complete" && "stdout" != "error"
    ensures "stderr" != "complete" && "stderr" != "error" && "complete" != "error"
  {
    assert "type"[0] == 't' && "data"[0] == 'd' && |"exitCode"| == 8;
    assert |"stdout"| == 6 && |"stderr"| == 6 && |"complete"| == 8 && |"error"| == 5;
    assert "stdout"[3] == 'o' && "stderr"[3] == 'e';
  }

  lemma TwoMembers(kind: string, key: string, value: Json)
    requires FlatValue(value) && key != "type" && (key == "data" || key == "exitCode")
    ensures var m := Member("type", Str(kind), Member(key, value, NoMember));
            && Flat(m) && Get(m, "type") == Some(Str(kind)) && Get(m, key) == Some(value)
            && (key != "data" ==> Get(m, "data").None?) && (key != "exitCode" ==> Get(m, "exitCode").None?)
  {
    hide FlatValue;
    var last := Member(key, value, NoMember);
    assert Get(NoMember, "type").None? && Get(NoMember, "data").None? && Get(NoMember, "exitCode").None?;
    assert Get(NoMember, key).None?;
    assert Get(last, "type").None? && Get(last, key) == Some(value);
    KeysDiffer();
    assert Flat(NoMember) && Flat(last);
    StringIsFlat(kind);
  }

  lemma StringIsFlat(s: string)
    ensures FlatValue(Str(s))
  {
  }

  /** Every message is read as it was meant. */
  lemma MessageReadsBack(m: Message)
    ensures ReadEvent(PayloadOf(m)) == Meant(m)
  {
    hide Integer, ReadObject, Print;
    KeysDiffer();
    NoInteger();
    match m
    case ToStdout(data) => TwoMembers("stdout", "data", Str(data)); ReadObjectInverts(MembersOf(m));
    case ToStderr(data) => TwoMembers("stderr", "data", Str(data)); ReadObjectInverts(MembersOf(m));
    case Exited(code) =>
      IntegerReadsBack(code);
      TwoMembers("complete", "exitCode", Num(Integer(code)));
      ReadObjectInverts(MembersOf(m));
    case Errored =>
      assert Flat(MembersOf(m)) && Get(MembersOf(m), "type") == Some(Str("error")) by { OneMember(); }
      ReadObjectInverts(MembersOf(m));
  }

  lemma OneMember()
    ensures Flat(MembersOf(Errored)) && Get(MembersOf(Errored), "type") == Some(Str("error"))
  {
    assert Get(NoMember, "type").None? && Flat(NoMember);
  }

  // ----- a whole command -----

  function SentAs(messages: seq<Message>): seq<Sent> {
    if messages == [] then [] else [Data(PayloadOf(messages[0]))] + SentAs(messages[1..])
  }

  function MeantAll(messages: seq<Message>): seq<Event> {
    if messages == [] then [] else [Meant(messages[0])] + MeantAll(messages[1..])
  }

  lemma MembersPrintNumbers(m: Message)
    ensures NumbersOk(Obj(MembersOf(m)))
  {
    hide Integer;
    if m.Exited? { IntegerReadsBack(m.code); }
    var all := MembersOf(m);
    var last := all.rest;
    assert MemberNumbersOk(NoMember);
    if last.Member? {
      assert NumbersOk(last.value) && last.rest == NoMember;
      assert MemberNumbersOk(last);
    }
    assert NumbersOk(all.value) by { assert all.value.Str?; }
    assert MemberNumbersOk(all);
  }

  lemma PayloadIsSendable(m: Message)
    ensures Sendable(Data(PayloadOf(m)))
  {
    hide MembersOf, Print;
    MembersPrintNumbers(m);
    PrintHasNoNewline(Obj(MembersOf(m)));
  }

  lemma {:induction false} MessagesAreClassified(messages: seq<Message>)
    ensures Classified(SentAs(messages), ReadEvent) == MeantAll(messages)
    ensures forall i | 0 <= i < |SentAs(messages)| :: Sendable(SentAs(messages)[i])
    ensures |SentAs(messages)| == |messages|
    ensures forall i | 0 <= i < |messages| :: SentAs(messages)[i] == Data(PayloadOf(messages[i]))
  {
    hide ReadEvent, PayloadOf, Sendable, Meant;
    if messages != [] {
      MessageReadsBack(messages[0]);
      PayloadIsSendable(messages[0]);
      MessagesAreClassified(messages[1..]);
    }
  }

  /**
   A command whose messages are sent within the limits: each output stream is the data sent to it, in
   order, success is the last exit code being zero, and an error message or too much output fails it.
   */
  lemma CommandIsCollected(messages: seq<Message>, maxOutputBytes: nat)
    requires var stream := Utf8.Encode(Joined(LinesOf(SentAs(messages))));
             |stream| <= WireLimit(maxOutputBytes) && FramesFit(stream, FrameLimit(maxOutputBytes))
    ensures var output := Collected(Utf8.Encode(Joined(LinesOf(SentAs(messages)))), maxOutputBytes, ReadEvent);
            var events := MeantAll(messages);
            && (output.Some? <==>
                  && (forall i | 0 <= i < |messages| :: !messages[i].Errored?)
                  && Utf8.Length(StdoutOf(events)) + Utf8.Length(StderrOf(events)) <= maxOutputBytes)
            && (output.Some? ==> OutputIs(output.value, events))
  {
    hide ReadEvent, PayloadOf, Sendable, Collected, FramesFit, Utf8.Encode, StdoutOf, StderrOf, OutputIs,
         WireLimit, FrameLimit;
    MessagesAreClassified(messages);
    ErrorsAreErrors(messages);
    CollectsWhatWasSent(SentAs(messages), maxOutputBytes, ReadEvent);
  }

  lemma {:induction false} ErrorsAreErrors(messages: seq<Message>)
    ensures NoErrors(MeantAll(messages)) <==> forall i | 0 <= i < |messages| :: !messages[i].Errored?
  {
    if messages != [] {
      var events := MeantAll(messages);
      ErrorsAreErrors(messages[1..]);
      assert events[0] == Meant(messages[0]);
      assert forall i | 0 < i < |messages| :: messages[i] == messages[1..][i - 1];
      assert NoErrors(events) <==> !Meant(messages[0]).Failure? && NoErrors(events[1..]);
      assert events[1..] == MeantAll(messages[1..]);
    }
  }
}
