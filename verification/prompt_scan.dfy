/** One iteration of `TerminalSession.PumpOutputAsync`, as a pure transition:
    a decoded chunk is emitted, appended to the rolling prompt buffer, and the
    buffer is scanned for the three OpenSSH prompts in a fixed priority. When a
    prompt fires the broker's answer, if any, is formatted into the reply
    written back to ssh and the buffer is cleared, unless the broker or the
    write throws, which ends the pump. The UTF-8 decoder, the pipe
    read and the awaiting of the broker are outside the step: the decoded chunk
    and the broker's answer are its inputs. */
module PromptScan {
  import opened Wrappers
  import opened Text

  /** The capacity of the rolling prompt buffer, in characters. */
  const Window: nat := 2500

  const HostKeyText: string := "Are you sure you want to continue connecting"
  const PassphraseText: string := "Enter passphrase for key"
  const PasswordText: string := "password:"

  /** The prompts the pump recognises, in priority order. */
  datatype Prompt = HostKey | Passphrase | Password

  /** The message handed to the prompt subscriber for each prompt. */
  function PromptMessage(prompt: Prompt): string {
    match prompt
    case HostKey => "SSH wants to trust this host key.\n\nType: yes (accept) or no (reject)."
    case Passphrase => "SSH key passphrase required."
    case Password => "SSH password required."
  }

  // ---------------------------------------------------------------------
  // Rolling buffer
  // ---------------------------------------------------------------------

  /** The buffer after appending: the last `Window` characters of what it
      held followed by the chunk, or all of it when that is shorter. */
  function Append(recent: string, chunk: string): (r: string)
    ensures |r| <= Window
    ensures |r| == if |recent + chunk| < Window then |recent + chunk| else Window
    ensures r == (recent + chunk)[|recent + chunk| - |r|..]
  {
    var joined := recent + chunk;
    if |joined| > Window then joined[|joined| - Window..] else joined
  }

  /** A window of a longer text is the same as the window of any suffix of it
      that still holds `Window` characters. */
  lemma WindowOfSuffix(x: string, y: string)
    requires |x| <= |y| && x == y[|y| - |x|..]
    requires |x| >= Window
    ensures Append(x, []) == Append(y, [])
  {
    assert x + [] == x;
    assert y + [] == y;
    assert x[|x| - Window..] == y[|y| - Window..];
  }

  /** Appending chunk by chunk keeps exactly what appending their
      concatenation at once would keep: the buffer is always the last `Window`
      characters of everything appended since it was last cleared. */
  lemma AppendComposes(recent: string, a: string, b: string)
    ensures Append(Append(recent, a), b) == Append(recent, a + b)
  {
    var joined := recent + a;
    var kept := Append(recent, a);
    assert recent + (a + b) == joined + b;
    if |joined| > Window {
      var x := kept + b;
      var y := joined + b;
      assert x == y[|y| - |x|..];
      WindowOfSuffix(x, y);
      assert Append(kept, b) == Append(x, []) by { assert x + [] == x; }
      assert Append(recent, a + b) == Append(y, []) by { assert y + [] == y; }
    } else {
      assert kept == joined;
    }
  }

  // ---------------------------------------------------------------------
  // Prompt detection
  // ---------------------------------------------------------------------

  /** `phrase` occurs in `s`, ignoring case. */
  ghost predicate Mentions(s: string, phrase: string) {
    exists i: nat :: i <= |s| && MatchesAt(s, phrase, i)
  }

  /** `s`, with its trailing whitespace removed, ends with `password:`,
      ignoring case. */
  predicate AsksPassword(s: string) {
    EndsWithIgnoreCase(TrimEnd(s), PasswordText)
  }

  /** The prompt the buffer shows, if any. The host-key question wins over
      everything, the passphrase request wins over a password prompt, and a
      password prompt counts only at the very end of the buffer. */
  function Detect(buffer: string): (r: Option<Prompt>)
    ensures r == Some(HostKey) <==> Mentions(buffer, HostKeyText)
    ensures r == Some(Passphrase) <==> !Mentions(buffer, HostKeyText) && Mentions(buffer, PassphraseText)
    ensures r == Some(Password)
        <==> !Mentions(buffer, HostKeyText) && !Mentions(buffer, PassphraseText) && AsksPassword(buffer)
    ensures r == None
        <==> !Mentions(buffer, HostKeyText) && !Mentions(buffer, PassphraseText) && !AsksPassword(buffer)
  {
    if ContainsIgnoreCase(buffer, HostKeyText) then Some(HostKey)
    else if ContainsIgnoreCase(buffer, PassphraseText) then Some(Passphrase)
    else if AsksPassword(buffer) then Some(Password)
    else None
  }

  // ---------------------------------------------------------------------
  // Replies
  // ---------------------------------------------------------------------

  /** The text written back to ssh for the subscriber's answer (`None` is a
      `null` answer), or `None` when nothing is written. A host-key answer is
      written trimmed and only when it is not blank; a passphrase or password
      answer is written as given, even when empty. Every reply ends with a
      carriage return. */
  function Reply(prompt: Prompt, answer: Option<string>): (r: Option<string>)
    ensures prompt == HostKey ==> (r.Some? <==> !IsNullOrWhiteSpace(answer))
    ensures prompt != HostKey ==> (r.Some? <==> answer.Some?)
    ensures r.Some? ==> |r.value| >= 1 && r.value[|r.value| - 1] == '\r'
    ensures r.Some? && prompt != HostKey ==> r.value[..|r.value| - 1] == answer.value
    ensures r.Some? && prompt == HostKey ==>
              var typed := r.value[..|r.value| - 1];
              && typed == Trim(answer.value)
              && typed != []
              && !IsWhiteSpace(typed[0]) && !IsWhiteSpace(typed[|typed| - 1])
  {
    match prompt
    case HostKey =>
      if !IsNullOrWhiteSpace(answer) then
        var typed := Trim(answer.value);
        assert (typed + "\r")[..|typed|] == typed;
        Some(typed + "\r")
      else None
    case _ =>
      match answer
      case Some(a) =>
        assert (a + "\r")[..|a|] == a;
        Some(a + "\r")
      case None => None
  }

  // ---------------------------------------------------------------------
  // One loop iteration
  // ---------------------------------------------------------------------

  /** The prompt subscriber: none registered, one whose call throws, or one
      that answers (`None` is a `null` answer), together with whether writing
      the reply back to ssh throws. */
  datatype Broker = NoSubscriber | SubscriberThrows | Subscriber(answer: Option<string>, writeThrows: bool)

  /** What one iteration does: the chunk emitted to the output event, the new
      buffer, the prompt that fired, the message the subscriber was asked, the
      text whose write to ssh was attempted, and whether the iteration ended
      the pump with an exception. */
  datatype StepResult = StepResult(
    emitted: Option<string>,
    recent: string,
    fired: Option<Prompt>,
    asked: Option<string>,
    written: Option<string>,
    faulted: bool)

  /** Processes one decoded chunk. A prompt clears the buffer once it has been
      handled; when the subscriber's call or the write of its reply throws,
      the exception ends the pump before the buffer is cleared. */
  function Step(recent: string, chunk: string, broker: Broker): (r: StepResult)
    ensures chunk == [] ==> r == StepResult(None, recent, None, None, None, false)
    ensures chunk != [] ==> r.emitted == Some(chunk) && r.fired == Detect(Append(recent, chunk))
    ensures r.fired.Some? && !r.faulted ==> r.recent == []
    ensures chunk != [] && (r.fired.None? || r.faulted) ==> r.recent == Append(recent, chunk)
    ensures r.faulted <==> r.fired.Some? && (broker.SubscriberThrows? || (broker.Subscriber? && broker.writeThrows && r.written.Some?))
    ensures r.asked.Some? <==> r.fired.Some? && !broker.NoSubscriber?
    ensures r.asked.Some? ==> r.asked.value == PromptMessage(r.fired.value)
    ensures r.written.Some? ==> r.fired.Some? && broker.Subscriber? && r.written == Reply(r.fired.value, broker.answer)
    ensures r.fired.Some? && broker.Subscriber? ==> r.written == Reply(r.fired.value, broker.answer)
  {
    if chunk == [] then StepResult(None, recent, None, None, None, false)
    else
      var buffer := Append(recent, chunk);
      match Detect(buffer)
      case None => StepResult(Some(chunk), buffer, None, None, None, false)
      case Some(prompt) =>
        match broker
        case NoSubscriber => StepResult(Some(chunk), [], Some(prompt), None, None, false)
        case SubscriberThrows => StepResult(Some(chunk), buffer, Some(prompt), Some(PromptMessage(prompt)), None, true)
        case Subscriber(answer, writeThrows) =>
          var reply := Reply(prompt, answer);
          var faulted := reply.Some? && writeThrows;
          StepResult(Some(chunk), if faulted then buffer else [], Some(prompt), Some(PromptMessage(prompt)), reply, faulted)
  }

  /** What ends the loop, or the chunk the decoder produced from a read. */
  datatype ReadEvent = ReadFailed | EndOfStream | Decoded(chunk: string)

  /** One turn of the loop: `None` when it stops before reading on
      (cancellation, a failed read, or a read of zero bytes), otherwise the
      step on the decoded chunk. A faulted step is the loop's last. */
  function Iterate(cancelled: bool, recent: string, event: ReadEvent, broker: Broker): (r: Option<StepResult>)
    ensures r.None? <==> cancelled || !event.Decoded?
    ensures r.Some? ==> r.value == Step(recent, event.chunk, broker)
  {
    if cancelled then None
    else match event
      case ReadFailed => None
      case EndOfStream => None
      case Decoded(chunk) => Some(Step(recent, chunk, broker))
  }

  // ---------------------------------------------------------------------
  // Runs of iterations
  // ---------------------------------------------------------------------

  /** The concatenation of a sequence of chunks. */
  function Concat(chunks: seq<string>): string {
    if chunks == [] then [] else Concat(chunks[..|chunks| - 1]) + chunks[|chunks| - 1]
  }

  /** The buffer, the prompts fired, and whether the pump has ended with an
      exception, after processing `chunks` in order with `broker[k]`
      standing by at step `k`. Once the pump has ended, later chunks are not
      processed. */
  function Run(recent: string, chunks: seq<string>, broker: seq<Broker>): (r: (string, seq<Prompt>, bool))
    requires |broker| == |chunks|
    ensures r.2 ==> r.1 != []
  {
    if chunks == [] then (recent, [], false)
    else
      var n := |chunks| - 1;
      var before := Run(recent, chunks[..n], broker[..n]);
      if before.2 then before
      else
        var step := Step(before.0, chunks[n], broker[n]);
        (step.recent, before.1 + (if step.fired.Some? then [step.fired.value] else []), step.faulted)
  }

  /** After the pump has ended, further output changes nothing. */
  lemma EndedRunIgnoresLaterChunks(recent: string, chunks: seq<string>, broker: seq<Broker>, chunk: string, b: Broker)
    requires |broker| == |chunks|
    requires Run(recent, chunks, broker).2
    ensures Run(recent, chunks + [chunk], broker + [b]) == Run(recent, chunks, broker)
  {
    assert (chunks + [chunk])[..|chunks|] == chunks;
    assert (broker + [b])[..|broker|] == broker;
  }

  /** The buffer never holds more than `Window` characters. */
  lemma {:induction false} RunStaysWithinWindow(recent: string, chunks: seq<string>, broker: seq<Broker>)
    requires |broker| == |chunks|
    requires |recent| <= Window
    ensures |Run(recent, chunks, broker).0| <= Window
  {
    if chunks != [] {
      var n := |chunks| - 1;
      RunStaysWithinWindow(recent, chunks[..n], broker[..n]);
    }
  }

  /** While no prompt fires, the buffer is the last `Window` characters of
      everything the pump has seen: splitting the output into chunks makes no
      difference to what the scan sees. */
  lemma {:induction false} QuietRunKeepsWindow(recent: string, chunks: seq<string>, broker: seq<Broker>)
    requires |broker| == |chunks|
    requires |recent| <= Window
    requires Run(recent, chunks, broker).1 == []
    ensures Run(recent, chunks, broker).0 == Append(recent, Concat(chunks))
  {
    if chunks == [] {
      assert recent + [] == recent;
    } else {
      var n := |chunks| - 1;
      var before := Run(recent, chunks[..n], broker[..n]);
      assert chunks[..n] == chunks[..|chunks| - 1];
      assert before.1 == [];
      QuietRunKeepsWindow(recent, chunks[..n], broker[..n]);
      AppendComposes(recent, Concat(chunks[..n]), chunks[n]);
      if chunks[n] == [] {
        assert Concat(chunks) == Concat(chunks[..n]);
        AppendComposes(recent, Concat(chunks[..n]), []);
        assert Concat(chunks[..n]) + [] == Concat(chunks[..n]);
        assert Append(Append(recent, Concat(chunks[..n])), []) == Append(recent, Concat(chunks[..n]));
      }
    }
  }

  /** After a prompt fires and the pump goes on, the stale text is gone: what
      the next chunk triggers depends on that chunk alone. */
  lemma FiredPromptDoesNotRetrigger(recent: string, first: string, second: string, b1: Broker, b2: Broker)
    requires Step(recent, first, b1).fired.Some? && !Step(recent, first, b1).faulted
    requires second != []
    ensures Step(Step(recent, first, b1).recent, second, b2).fired == Detect(Append([], second))
  {
  }

  /** A host-key question and a password prompt arriving together fire only
      the host-key prompt, and the password prompt is cleared with it unless
      handling the host-key prompt ends the pump. */
  lemma HostKeyOutranksPassword(recent: string, chunk: string, broker: Broker)
    requires chunk != []
    requires Mentions(Append(recent, chunk), HostKeyText)
    requires AsksPassword(Append(recent, chunk))
    ensures Step(recent, chunk, broker).fired == Some(HostKey)
    ensures Step(recent, chunk, broker).recent == [] <==> !Step(recent, chunk, broker).faulted
  {
  }
}
