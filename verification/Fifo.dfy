/**
 The FIFO over which a shell task sends log messages to BitBake: `readfifo` in
 `exec_func_shell`.  Messages end with a NUL byte.  The reader gets the stream in arbitrary
 pieces, keeps the unterminated rest in a buffer, and dispatches every complete message.
 */
module Fifo {
  import opened Sequences
  import opened Bytes

  /** What the dispatch does with one message. */
  datatype Call =
    | Plain(text: seq<byte>)
    | Note(text: seq<byte>)
    | VerbNote(text: seq<byte>)
    | Warn(text: seq<byte>)
    | Error(text: seq<byte>)
    | ErrorForceLog(text: seq<byte>)
    | Debug(level: int, text: seq<byte>)
    | Unrecognised(cmd: seq<byte>)

  /** A handler result; `Raise` stands for the exceptions of `int()` and of a missing argument. */
  datatype Outcome = Call(call: Call) | Raise

  const SPACE: byte := 32

  /** The words that start a message. */
  datatype Words = Words(plain: seq<byte>, note: seq<byte>, verbnote: seq<byte>, warn: seq<byte>, error: seq<byte>,
                         fatal: seq<byte>, fatal_log: seq<byte>, debug: seq<byte>)

  function BBWords(): Words {
    Words(Ascii("bbplain"), Ascii("bbnote"), Ascii("bbverbnote"), Ascii("bbwarn"), Ascii("bberror"), Ascii("bbfatal"),
          Ascii("bbfatal_log"), Ascii("bbdebug"))
  }

  /**
   The branches of the dispatch.  `parseInt` is Python's `int()` on the level of a debug
   message; it gives nothing where `int()` raises.
   */
  function Dispatch(message: seq<byte>, parseInt: seq<byte> -> (bool, int)): Outcome {
    DispatchIn(BBWords(), message, parseInt)
  }

  function DispatchIn(w: Words, message: seq<byte>, parseInt: seq<byte> -> (bool, int)): Outcome {
    var sp := IndexOf(message, SPACE);
    Command(w, message[..sp], if sp < |message| then message[sp + 1..] else [], parseInt)
  }

  function Command(w: Words, cmd: seq<byte>, value: seq<byte>, parseInt: seq<byte> -> (bool, int)): Outcome {
    if cmd == w.plain then Call(Plain(value))
    else if cmd == w.note then Call(Note(value))
    else if cmd == w.verbnote then Call(VerbNote(value))
    else if cmd == w.warn then Call(Warn(value))
    else if cmd == w.error then Call(Error(value))
    else if cmd == w.fatal then Call(Error(value))
    else if cmd == w.fatal_log then Call(ErrorForceLog(value))
    else if cmd == w.debug then DebugCommand(value, parseInt)
    else Call(Unrecognised(cmd))
  }

  function DebugCommand(value: seq<byte>, parseInt: seq<byte> -> (bool, int)): Outcome {
    var sp := IndexOf(value, SPACE);
    var level := parseInt(value[..sp]);
    if !level.0 || sp == |value| then Raise else Call(Debug(level.1, value[sp + 1..]))
  }

  // ---- What the messages mean ----

  /** The word that asks for a call. */
  function WordOf(call: Call): seq<byte> {
    match call
    case Plain(_) => Ascii("bbplain")
    case Note(_) => Ascii("bbnote")
    case VerbNote(_) => Ascii("bbverbnote")
    case Warn(_) => Ascii("bbwarn")
    case Error(_) => Ascii("bberror")
    case ErrorForceLog(_) => Ascii("bbfatal_log")
    case Debug(_, _) => Ascii("bbdebug")
    case Unrecognised(cmd) => cmd
  }

  /** The message that asks for a call: its word, a blank, and the text; for a debug message the level comes first. */
  function Message(call: Call, show: int -> seq<byte>): seq<byte> {
    MessageWith(WordOf(call), call, show)
  }

  function MessageWith(word: seq<byte>, call: Call, show: int -> seq<byte>): seq<byte> {
    match call
    case Unrecognised(_) => word
    case Debug(level, text) => word + [SPACE] + (show(level) + [SPACE] + text)
    case _ => word + [SPACE] + call.text
  }

  function AllWords(w: Words): seq<seq<byte>> {
    [w.plain, w.note, w.verbnote, w.warn, w.error, w.fatal, w.fatal_log, w.debug]
  }

  /** No word is another, and none has a blank or a NUL. */
  predicate Distinct(w: Words) {
    var words := AllWords(w);
    NoDup(words) && forall i | 0 <= i < |words| :: SPACE !in words[i] && 0 !in words[i]
  }

  lemma WordShape(word: string)
    requires forall i | 0 <= i < |word| :: 'a' <= word[i] <= 'z' || word[i] == '_'
    ensures forall i | 0 <= i < |word| :: Ascii(word)[i] == word[i] as int
    ensures SPACE !in Ascii(word) && 0 !in Ascii(word)
  {
  }

  /** Their lengths and third letters tell the words apart. */
  lemma WordsDiffer()
    ensures Distinct(BBWords())
  {
    WordShape("bbplain");
    WordShape("bbnote");
    WordShape("bbverbnote");
    WordShape("bbwarn");
    WordShape("bberror");
    WordShape("bbfatal");
    WordShape("bbfatal_log");
    WordShape("bbdebug");
    assert Ascii("bbplain")[2] == 'p' as int && Ascii("bbnote")[2] == 'n' as int && Ascii("bbwarn")[2] == 'w' as int;
    assert Ascii("bberror")[2] == 'e' as int && Ascii("bbfatal")[2] == 'f' as int;
    assert Ascii("bbdebug")[2] == 'd' as int;
  }

  /** The word of a message is what stands before its first blank, its text what stands behind it. */
  lemma WordAndText(w: Words, word: seq<byte>, text: seq<byte>, parseInt: seq<byte> -> (bool, int))
    requires SPACE !in word
    ensures DispatchIn(w, word + [SPACE] + text, parseInt) == Command(w, word, text, parseInt)
    ensures DispatchIn(w, word, parseInt) == Command(w, word, [], parseInt)
  {
    IndexOfFirst(word, text, SPACE);
    var message := word + [SPACE] + text;
    assert message[..|word|] == word && message[|word| + 1..] == text && word[..|word|] == word;
  }

  /** A debug message without a blank behind the level, or with a level that is no number, raises; no other does. */
  lemma DebugMeaning(level: seq<byte>, text: seq<byte>, parseInt: seq<byte> -> (bool, int))
    requires SPACE !in level
    ensures Dispatch(Ascii("bbdebug") + [SPACE] + level, parseInt) == Raise
    ensures Dispatch(Ascii("bbdebug") + [SPACE] + (level + [SPACE] + text), parseInt) ==
            if parseInt(level).0 then Outcome.Call(Debug(parseInt(level).1, text)) else Raise
  {
    KnownWord(Ascii("bbdebug"), level, parseInt);
    KnownWord(Ascii("bbdebug"), level + [SPACE] + text, parseInt);
    CallsByWord(BBWords(), level, parseInt);
    CallsByWord(BBWords(), level + [SPACE] + text, parseInt);
    LevelAndText(level, text, parseInt);
  }

  lemma LevelAndText(level: seq<byte>, text: seq<byte>, parseInt: seq<byte> -> (bool, int))
    requires SPACE !in level
    ensures DebugCommand(level, parseInt) == Raise
    ensures DebugCommand(level + [SPACE] + text, parseInt) ==
            if parseInt(level).0 then Outcome.Call(Debug(parseInt(level).1, text)) else Raise
  {
    IndexOfFirst(level, text, SPACE);
    var value := level + [SPACE] + text;
    assert value[..|level|] == level && value[|level| + 1..] == text;
  }

  /** Each message is dispatched to the call it asks for. */
  lemma MessageDispatched(call: Call, parseInt: seq<byte> -> (bool, int), show: int -> seq<byte>)
    requires forall n :: SPACE !in show(n) && parseInt(show(n)) == (true, n)
    requires call.Unrecognised? ==> SPACE !in call.cmd && call.cmd !in AllWords(BBWords())
    ensures Dispatch(Message(call, show), parseInt) == Outcome.Call(call)
  {
    match call {
      case Unrecognised(cmd) =>
        WordAlone(cmd, parseInt);
        UnknownWord(cmd, [], parseInt);
      case Debug(level, text) => DebugMeaning(show(level), text, parseInt);
      case _ =>
        KnownWord(WordOf(call), call.text, parseInt);
        CallsByWord(BBWords(), call.text, parseInt);
    }
  }

  /** The distinct words make the chain of comparisons a case distinction. */
  lemma CallsByWord(w: Words, text: seq<byte>, parseInt: seq<byte> -> (bool, int))
    requires Distinct(w)
    ensures Command(w, w.plain, text, parseInt) == Outcome.Call(Plain(text))
    ensures Command(w, w.note, text, parseInt) == Outcome.Call(Note(text))
    ensures Command(w, w.verbnote, text, parseInt) == Outcome.Call(VerbNote(text))
    ensures Command(w, w.warn, text, parseInt) == Outcome.Call(Warn(text))
    ensures Command(w, w.error, text, parseInt) == Outcome.Call(Error(text))
    ensures Command(w, w.fatal, text, parseInt) == Outcome.Call(Error(text))
    ensures Command(w, w.fatal_log, text, parseInt) == Outcome.Call(ErrorForceLog(text))
    ensures Command(w, w.debug, text, parseInt) == DebugCommand(text, parseInt)
  {
    WordsApart(w);
  }

  lemma WordsApart(w: Words)
    requires Distinct(w)
    ensures w.plain !in [w.note, w.verbnote, w.warn, w.error, w.fatal, w.fatal_log, w.debug]
    ensures w.note !in [w.verbnote, w.warn, w.error, w.fatal, w.fatal_log, w.debug]
    ensures w.verbnote !in [w.warn, w.error, w.fatal, w.fatal_log, w.debug]
    ensures w.warn !in [w.error, w.fatal, w.fatal_log, w.debug]
    ensures w.error !in [w.fatal, w.fatal_log, w.debug] && w.fatal !in [w.fatal_log, w.debug]
    ensures w.fatal_log != w.debug
    ensures forall x | x in AllWords(w) :: SPACE !in x && 0 !in x
  {
    var words := AllWords(w);
    assert w.plain == words[0] && w.note == words[1] && w.verbnote == words[2] && w.warn == words[3];
    assert w.error == words[4] && w.fatal == words[5] && w.fatal_log == words[6] && w.debug == words[7];
  }

  /** The second word for an error. */
  lemma FatalIsError(text: seq<byte>, parseInt: seq<byte> -> (bool, int))
    ensures Dispatch(Ascii("bbfatal") + [SPACE] + text, parseInt) == Outcome.Call(Error(text))
  {
    KnownWord(Ascii("bbfatal"), text, parseInt);
    CallsByWord(BBWords(), text, parseInt);
  }

  /** Exactly the words nobody knows are reported as such, whatever text follows. */
  lemma UnknownWord(word: seq<byte>, text: seq<byte>, parseInt: seq<byte> -> (bool, int))
    requires SPACE !in word
    ensures Dispatch(word + [SPACE] + text, parseInt) == Outcome.Call(Unrecognised(word)) <==>
            word !in AllWords(BBWords())
  {
    WordAndText(BBWords(), word, text, parseInt);
    UnknownIn(BBWords(), word, text, parseInt);
  }

  lemma UnknownIn(w: Words, word: seq<byte>, text: seq<byte>, parseInt: seq<byte> -> (bool, int))
    ensures Command(w, word, text, parseInt) == Outcome.Call(Unrecognised(word)) <==> word !in AllWords(w)
  {
    var words := AllWords(w);
    assert w.plain == words[0] && w.note == words[1] && w.verbnote == words[2] && w.warn == words[3];
    assert w.error == words[4] && w.fatal == words[5] && w.fatal_log == words[6] && w.debug == words[7];
  }

  /** No message with another word raises. */
  lemma OnlyDebugRaises(word: seq<byte>, text: seq<byte>, parseInt: seq<byte> -> (bool, int))
    requires SPACE !in word && word != Ascii("bbdebug")
    ensures Dispatch(word + [SPACE] + text, parseInt).Call?
  {
    WordAndText(BBWords(), word, text, parseInt);
    OthersCall(BBWords(), word, text, parseInt);
  }

  lemma OthersCall(w: Words, word: seq<byte>, text: seq<byte>, parseInt: seq<byte> -> (bool, int))
    requires word != w.debug
    ensures Command(w, word, text, parseInt).Call?
  {
  }

  /** A word without a blank behind it has the empty text. */
  lemma WordAlone(word: seq<byte>, parseInt: seq<byte> -> (bool, int))
    requires SPACE !in word
    ensures Dispatch(word, parseInt) == Dispatch(word + [SPACE] + [], parseInt)
  {
    WordAndText(BBWords(), word, [], parseInt);
  }

  lemma KnownWord(word: seq<byte>, text: seq<byte>, parseInt: seq<byte> -> (bool, int))
    requires word in AllWords(BBWords())
    ensures Dispatch(word + [SPACE] + text, parseInt) == Command(BBWords(), word, text, parseInt)
    ensures Distinct(BBWords())
  {
    WordsDiffer();
    WordsApart(BBWords());
    WordAndText(BBWords(), word, text, parseInt);
  }

  /** The messages of a sequence of calls. */
  function MessagesOf(calls: seq<Call>, show: int -> seq<byte>): seq<seq<byte>> {
    if calls == [] then [] else [Message(calls[0], show)] + MessagesOf(calls[1..], show)
  }

  predicate Sendable(call: Call) {
    match call
    case Unrecognised(cmd) => SPACE !in cmd && 0 !in cmd && cmd !in AllWords(BBWords())
    case _ => 0 !in call.text
  }

  lemma MessageSendable(call: Call, show: int -> seq<byte>)
    requires Sendable(call) && forall n :: 0 !in show(n)
    ensures 0 !in Message(call, show)
  {
    WordsDiffer();
    WordsApart(BBWords());
    assert call.Unrecognised? || WordOf(call) in AllWords(BBWords());
  }

  lemma {:induction false} CallsOfMessages(calls: seq<Call>, parseInt: seq<byte> -> (bool, int),
                                           show: int -> seq<byte>, handle: seq<byte> -> Outcome)
    requires forall n :: SPACE !in show(n) && 0 !in show(n) && parseInt(show(n)) == (true, n)
    requires forall m :: handle(m) == Dispatch(m, parseInt)
    requires forall c | c in calls :: Sendable(c)
    ensures Calls(MessagesOf(calls, show), handle) == calls && !Raises(MessagesOf(calls, show), handle)
    ensures forall m | m in MessagesOf(calls, show) :: 0 !in m
  {
    if calls != [] {
      var messages := MessagesOf(calls, show);
      CallsOfMessages(calls[1..], parseInt, show, handle);
      assert Sendable(calls[0]);
      MessageDispatched(calls[0], parseInt, show);
      MessageSendable(calls[0], show);
      assert messages[0] == Message(calls[0], show) && messages[1..] == MessagesOf(calls[1..], show);
      RaisesHead(messages, handle);
      HeadTail(calls);
    }
  }

  /** What a task sends is what BitBake logs: every call, once, in the order sent. */
  lemma SentIsLogged(calls: seq<Call>, rest: seq<byte>, parseInt: seq<byte> -> (bool, int), show: int -> seq<byte>,
                     handle: seq<byte> -> Outcome)
    requires forall n :: SPACE !in show(n) && 0 !in show(n) && parseInt(show(n)) == (true, n)
    requires forall m :: handle(m) == Dispatch(m, parseInt)
    requires 0 !in rest && forall c | c in calls :: Sendable(c)
    ensures var stream := Frame(MessagesOf(calls, show), rest);
            Calls(Messages(stream), handle) == calls && !Raises(Messages(stream), handle) && Tail(stream) == rest
  {
    CallsOfMessages(calls, parseInt, show, handle);
    MessagesFrame(MessagesOf(calls, show), rest);
  }

  /** The complete messages of a stream, and what follows the last NUL of it. */
  function Messages(s: seq<byte>): seq<seq<byte>>
    decreases |s|
  {
    var k := IndexOf(s, 0);
    if k == |s| then [] else [s[..k]] + Messages(s[k + 1..])
  }

  function Tail(s: seq<byte>): seq<byte>
    decreases |s|
  {
    var k := IndexOf(s, 0);
    if k == |s| then s else Tail(s[k + 1..])
  }

  /** The stream that a sequence of messages and a rest come from. */
  function Frame(messages: seq<seq<byte>>, rest: seq<byte>): seq<byte> {
    if messages == [] then rest else messages[0] + [0] + Frame(messages[1..], rest)
  }

  /** The calls made for a sequence of messages: all of them up to the first that raises. */
  function Calls(messages: seq<seq<byte>>, handle: seq<byte> -> Outcome): seq<Call> {
    if messages == [] then []
    else
      match handle(messages[0])
      case Call(c) => [c] + Calls(messages[1..], handle)
      case Raise => []
  }

  predicate Raises(messages: seq<seq<byte>>, handle: seq<byte> -> Outcome) {
    exists k :: 0 <= k < |messages| && handle(messages[k]).Raise?
  }

  /** Cutting at NULs and joining with NULs are inverse to each other. */
  lemma {:induction false} FrameMessages(s: seq<byte>)
    ensures Frame(Messages(s), Tail(s)) == s
    ensures 0 !in Tail(s)
    ensures forall m :: m in Messages(s) ==> 0 !in m
    decreases |s|
  {
    var k := IndexOf(s, 0);
    if k == |s| {
      assert s[..k] == s;
    } else {
      var m, r := FirstMessage(s);
      FrameMessages(r);
      assert ([m] + Messages(r))[1..] == Messages(r);
    }
  }

  lemma MessagesStep(m: seq<byte>, t: seq<byte>)
    requires 0 !in m
    ensures Messages(m + [0] + t) == [m] + Messages(t)
    ensures Tail(m + [0] + t) == Tail(t)
  {
    IndexOfFirst(m, t, 0);
    var s := m + [0] + t;
    assert s[..|m|] == m && s[|m| + 1..] == t;
  }

  lemma {:induction false} MessagesFrame(messages: seq<seq<byte>>, rest: seq<byte>)
    requires 0 !in rest && forall m :: m in messages ==> 0 !in m
    ensures Messages(Frame(messages, rest)) == messages && Tail(Frame(messages, rest)) == rest
  {
    if messages == [] {
      assert IndexOf(rest, 0) == |rest|;
    } else {
      MessagesFrame(messages[1..], rest);
      MessagesStep(messages[0], Frame(messages[1..], rest));
      HeadTail(messages);
    }
  }

  lemma HeadTail<T>(messages: seq<T>)
    requires messages != []
    ensures [messages[0]] + messages[1..] == messages
  {
  }

  /** What stands before and behind the first NUL. */
  lemma FirstMessage(s: seq<byte>) returns (m: seq<byte>, r: seq<byte>)
    requires IndexOf(s, 0) < |s|
    ensures m == s[..IndexOf(s, 0)] && r == s[IndexOf(s, 0) + 1..]
    ensures s == m + [0] + r && 0 !in m && Messages(s) == [m] + Messages(r) && Tail(s) == Tail(r)
  {
    var k := IndexOf(s, 0);
    m, r := s[..k], s[k + 1..];
  }

  /** Reading more bytes appends messages: only the unterminated tail is looked at again. */
  lemma {:induction false} MessagesAppend(s: seq<byte>, t: seq<byte>)
    ensures Messages(s + t) == Messages(s) + Messages(Tail(s) + t)
    ensures Tail(s + t) == Tail(Tail(s) + t)
    decreases |s|
  {
    var k := IndexOf(s, 0);
    if k == |s| {
      assert Messages(s) == [] && Tail(s) == s;
    } else {
      var m, r := FirstMessage(s);
      assert s + t == m + [0] + (r + t);
      MessagesStep(m, r + t);
      MessagesAppend(r, t);
      Assoc([m], Messages(r), Messages(Tail(r) + t));
    }
  }

  lemma RaisesAppend(a: seq<seq<byte>>, b: seq<seq<byte>>, handle: seq<byte> -> Outcome)
    ensures Raises(a + b, handle) <==> Raises(a, handle) || Raises(b, handle)
  {
    if Raises(a, handle) {
      var k :| 0 <= k < |a| && handle(a[k]).Raise?;
      assert handle((a + b)[k]).Raise?;
    }
    if Raises(b, handle) {
      var k :| 0 <= k < |b| && handle(b[k]).Raise?;
      assert handle((a + b)[|a| + k]).Raise?;
    }
    if Raises(a + b, handle) {
      var k :| 0 <= k < |a + b| && handle((a + b)[k]).Raise?;
      if k < |a| {
        assert handle(a[k]).Raise?;
      } else {
        assert handle(b[k - |a|]).Raise?;
      }
    }
  }

  lemma RaisesHead(a: seq<seq<byte>>, handle: seq<byte> -> Outcome)
    requires a != []
    ensures Raises(a, handle) <==> handle(a[0]).Raise? || Raises(a[1..], handle)
  {
    HeadTail(a);
    RaisesAppend([a[0]], a[1..], handle);
    assert handle([a[0]][0]).Raise? <==> Raises([a[0]], handle);
  }

  lemma {:induction false} CallsAppend(a: seq<seq<byte>>, b: seq<seq<byte>>, handle: seq<byte> -> Outcome)
    ensures !Raises(a, handle) ==> Calls(a + b, handle) == Calls(a, handle) + Calls(b, handle)
    ensures Raises(a, handle) ==> Calls(a + b, handle) == Calls(a, handle)
    ensures Raises(a + b, handle) <==> Raises(a, handle) || Raises(b, handle)
  {
    RaisesAppend(a, b, handle);
    if a == [] {
      assert a + b == b;
    } else {
      assert (a + b)[1..] == a[1..] + b;
      CallsAppend(a[1..], b, handle);
      RaisesHead(a, handle);
      if handle(a[0]).Call? {
        Assoc([handle(a[0]).call], Calls(a[1..], handle), Calls(b, handle));
      }
    }
  }

  lemma CallsCons(done: seq<seq<byte>>, message: seq<byte>, rest: seq<seq<byte>>, handle: seq<byte> -> Outcome)
    requires !Raises(done, handle)
    ensures handle(message).Raise? ==>
              Raises(done + [message] + rest, handle) && Calls(done + [message] + rest, handle) == Calls(done, handle)
    ensures handle(message).Call? ==>
              !Raises(done + [message], handle)
              && Calls(done + [message], handle) == Calls(done, handle) + [handle(message).call]
  {
    assert Raises([message], handle) <==> handle([message][0]).Raise?;
    CallsAppend(done, [message], handle);
    CallsAppend(done + [message], rest, handle);
    assert [message][1..] == [];
  }

  /** The first message that raises, and all behind it. */
  function Unhandled(messages: seq<seq<byte>>, handle: seq<byte> -> Outcome): seq<seq<byte>> {
    if messages == [] || handle(messages[0]).Raise? then messages else Unhandled(messages[1..], handle)
  }

  lemma {:induction false} UnhandledAppend(done: seq<seq<byte>>, rest: seq<seq<byte>>, handle: seq<byte> -> Outcome)
    requires !Raises(done, handle)
    ensures Unhandled(done + rest, handle) == Unhandled(rest, handle)
  {
    if done == [] {
      assert done + rest == rest;
    } else {
      assert (done + rest)[1..] == done[1..] + rest;
      RaisesHead(done, handle);
      UnhandledAppend(done[1..], rest, handle);
    }
  }

  /** The messages in `done` were handled by `calls`, those in the buffer are still to come. */
  ghost predicate Progress(stream: seq<byte>, buffer: seq<byte>, done: seq<seq<byte>>, calls: seq<Call>,
                           handle: seq<byte> -> Outcome) {
    && done + Messages(buffer) == Messages(stream) && Tail(buffer) == Tail(stream)
    && !Raises(done, handle) && calls == Calls(done, handle)
  }

  lemma NextMessage(stream: seq<byte>, buffer: seq<byte>, done: seq<seq<byte>>, calls: seq<Call>,
                    handle: seq<byte> -> Outcome)
    requires Progress(stream, buffer, done, calls, handle) && IndexOf(buffer, 0) < |buffer|
    ensures var k := IndexOf(buffer, 0);
            match handle(buffer[..k])
            case Raise =>
              && Raises(Messages(stream), handle) && Calls(Messages(stream), handle) == calls
              && buffer == Frame(Unhandled(Messages(stream), handle), Tail(stream))
            case Call(c) => Progress(stream, buffer[k + 1..], done + [buffer[..k]], calls + [c], handle)
  {
    var message, nextmsg := FirstMessage(buffer);
    Assoc(done, [message], Messages(nextmsg));
    CallsCons(done, message, Messages(nextmsg), handle);
    UnhandledAppend(done, Messages(buffer), handle);
    FrameMessages(buffer);
  }

  lemma NoMessage(stream: seq<byte>, buffer: seq<byte>, done: seq<seq<byte>>, calls: seq<Call>,
                  handle: seq<byte> -> Outcome)
    requires Progress(stream, buffer, done, calls, handle) && IndexOf(buffer, 0) == |buffer|
    ensures !Raises(Messages(stream), handle) && Calls(Messages(stream), handle) == calls && buffer == Tail(stream)
  {
    assert done + [] == done;
  }

  class FifoReader {
    var fifobuffer: seq<byte>
    var log: seq<Call>
    const handle: seq<byte> -> Outcome

    constructor (parseInt: seq<byte> -> (bool, int))
      ensures fifobuffer == [] && log == []
      ensures forall m :: handle(m) == Dispatch(m, parseInt)
    {
      fifobuffer, log := [], [];
      handle := m => Dispatch(m, parseInt);
    }

    /** One read: `raised` when a handler raised, which leaves its message and all that follows in the buffer. */
    method ReadFifo(data: seq<byte>) returns (raised: bool)
      modifies this
      ensures var stream := old(fifobuffer) + data;
              && log == old(log) + Calls(Messages(stream), handle)
              && (raised <==> Raises(Messages(stream), handle))
              && fifobuffer == if raised then Frame(Unhandled(Messages(stream), handle), Tail(stream)) else Tail(stream)
    {
      fifobuffer := fifobuffer + data;
      ghost var stream := fifobuffer;
      ghost var done: seq<seq<byte>>, calls: seq<Call> := [], [];
      while fifobuffer != []
        invariant Progress(stream, fifobuffer, done, calls, handle)
        invariant log == old(log) + calls
        decreases |fifobuffer|
      {
        var k := IndexOf(fifobuffer, 0);
        if k == |fifobuffer| {
          break;
        }
        NextMessage(stream, fifobuffer, done, calls, handle);
        var message, nextmsg := fifobuffer[..k], fifobuffer[k + 1..];
        match handle(message) {
          case Raise =>
            return true;
          case Call(c) =>
            Assoc(old(log), calls, [c]);
            log, calls := log + [c], calls + [c];
        }
        done := done + [message];
        fifobuffer := nextmsg;
      }
      NoMessage(stream, fifobuffer, done, calls, handle);
      raised := false;
    }

    /** The whole stream, cut into `chunks`; reading stops when a handler raises. */
    method ReadAll(chunks: seq<seq<byte>>) returns (raised: bool)
      requires fifobuffer == [] && log == []
      modifies this
      ensures raised <==> Raises(Messages(Concat(chunks)), handle)
      ensures log == Calls(Messages(Concat(chunks)), handle)
      ensures !raised ==> fifobuffer == Tail(Concat(chunks))
    {
      for i := 0 to |chunks|
        invariant !Raises(Messages(Concat(chunks[..i])), handle)
        invariant log == Calls(Messages(Concat(chunks[..i])), handle)
        invariant fifobuffer == Tail(Concat(chunks[..i]))
      {
        ghost var before := Concat(chunks[..i]);
        assert chunks[..i + 1] == chunks[..i] + [chunks[i]];
        ConcatSnoc(chunks[..i], chunks[i]);
        MessagesAppend(before, chunks[i]);
        CallsAppend(Messages(before), Messages(Tail(before) + chunks[i]), handle);
        raised := ReadFifo(chunks[i]);
        if raised {
          RaisedPrefix(chunks, i + 1, handle);
          return;
        }
      }
      assert chunks[..|chunks|] == chunks;
      raised := false;
    }
  }

  /** What was dispatched before an exception does not depend on what follows in the stream. */
  lemma RaisedPrefix(chunks: seq<seq<byte>>, i: nat, handle: seq<byte> -> Outcome)
    requires i <= |chunks| && Raises(Messages(Concat(chunks[..i])), handle)
    ensures Raises(Messages(Concat(chunks)), handle)
    ensures Calls(Messages(Concat(chunks)), handle) == Calls(Messages(Concat(chunks[..i])), handle)
  {
    var before, after := Concat(chunks[..i]), Concat(chunks[i..]);
    assert chunks == chunks[..i] + chunks[i..];
    ConcatAppend(chunks[..i], chunks[i..]);
    RaisedBefore(before, after, handle);
  }

  lemma RaisedBefore(before: seq<byte>, after: seq<byte>, handle: seq<byte> -> Outcome)
    requires Raises(Messages(before), handle)
    ensures Raises(Messages(before + after), handle)
    ensures Calls(Messages(before + after), handle) == Calls(Messages(before), handle)
  {
    MessagesAppend(before, after);
    CallsAppend(Messages(before), Messages(Tail(before) + after), handle);
  }
}
