// The chat client's hand-off of typed lines from the input thread to the main loop: one buffer, one flag, one mutex.
// Every access to the buffer, the flag or the mutex is a step; memory is sequentially consistent.

module InputHandoff {

  datatype Owner = Nobody | InputThread | MainLoop

  /** Where the input thread is: taking the mutex, inside fgets, about to clear the flag, releasing, waiting. */
  datatype InputPc = Locking | Reading | Flagging | Releasing | Spinning

  /** Where the main loop is: testing the flag, trying the mutex, looking at the first character, sending,
      setting the flag, releasing. */
  datatype MainPc = Testing | Trying | Looking | Sending(quit: bool) | Setting | Unlocking

  /** What is sent for a line: the request to stop, or the line itself. */
  datatype Packet = Quit | Text(line: string)

  /** `ready` says that the flag is 0: a line waits in the buffer. */
  datatype State = State(ready: bool, buf: string, owner: Owner, input: InputPc, main: MainPc,
                         typed: seq<string>, sent: seq<Packet>)

  /** The input thread's turn inside fgets either writes some characters or completes a line. */
  datatype Event = InputTurn(text: string, complete: bool) | MainTurn

  function Init(): State { State(false, "", Nobody, Locking, Testing, [], []) }

  predicate StartsWithSlash(s: string) { s != "" && s[0] == '/' }

  function PacketOf(line: string): Packet { if StartsWithSlash(line) then Quit else Text(line) }

  predicate Enabled(s: State, e: Event) { e.InputTurn? && s.input == Locking ==> s.owner == Nobody }

  /** input_routine */
  function InputStep(s: State, text: string, complete: bool): State
    requires Enabled(s, InputTurn(text, complete))
  {
    match s.input
    case Locking => s.(owner := InputThread, input := Reading)
    case Reading =>
      if complete then s.(buf := text, typed := s.typed + [text], input := Flagging) else s.(buf := text)
    case Flagging => s.(ready := true, input := Releasing)
    case Releasing => s.(owner := Nobody, input := Spinning)
    case Spinning => if s.ready then s else s.(input := Locking)
  }

  /** The part of chat_client's loop that takes a line. */
  function MainStep(s: State): State {
    match s.main
    case Testing => if s.ready then s.(main := Trying) else s
    case Trying => if s.owner == Nobody then s.(owner := MainLoop, main := Looking) else s.(main := Testing)
    case Looking => s.(main := Sending(StartsWithSlash(s.buf)))
    case Sending(quit) => s.(sent := s.sent + [if quit then Quit else Text(s.buf)], main := Setting)
    case Setting => s.(ready := false, main := Unlocking)
    case Unlocking => s.(owner := Nobody, main := Testing)
  }

  function Step(s: State, e: Event): State
    requires Enabled(s, e)
  {
    match e
    case InputTurn(text, complete) => InputStep(s, text, complete)
    case MainTurn => MainStep(s)
  }

  ghost predicate Run(s: State, es: seq<Event>, t: State)
    decreases |es|
  {
    if es == [] then t == s else Enabled(s, es[0]) && Run(Step(s, es[0]), es[1..], t)
  }

  function Packets(lines: seq<string>): (r: seq<Packet>)
    ensures |r| == |lines|
  {
    seq(|lines|, i requires 0 <= i < |lines| => PacketOf(lines[i]))
  }

  /** A line has been completed and not yet sent. */
  predicate Outstanding(s: State) { |s.typed| > |s.sent| }

  ghost predicate Inv(s: State) {
    && (s.owner == InputThread <==> s.input in {Reading, Flagging, Releasing})
    && (s.owner == MainLoop <==> s.main in {Looking, Sending(true), Sending(false), Setting, Unlocking})
    && |s.sent| <= |s.typed| <= |s.sent| + 1
    && s.sent == Packets(s.typed[..|s.sent|])
    && (Outstanding(s) ==> s.buf == s.typed[|s.typed| - 1])
    && (match s.input
        case Flagging => Outstanding(s) && !s.ready
        case Releasing => Outstanding(s) && s.ready
        case Spinning => Outstanding(s) <==> s.ready && s.main != Setting
        case _ => !Outstanding(s) && !s.ready)
    && (s.main in {Trying, Looking, Sending(true), Sending(false), Setting} ==> s.ready)
    && (s.main.Sending? ==> s.main.quit == StartsWithSlash(s.buf))
    && (s.main == Unlocking ==> !s.ready)
  }

  lemma StepKeepsInv(s: State, e: Event)
    requires Inv(s) && Enabled(s, e)
    ensures Inv(Step(s, e))
  {
    var t := Step(s, e);
    if |t.sent| > |s.sent| {
      assert s.typed[..|t.sent|] == s.typed[..|s.sent|] + [s.typed[|s.sent|]];
    } else {
      assert t.typed[..|t.sent|] == s.typed[..|s.sent|];
    }
  }

  lemma {:induction false} RunKeepsInv(s: State, es: seq<Event>, t: State)
    requires Inv(s) && Run(s, es, t)
    ensures Inv(t)
    decreases |es|
  {
    if es != [] {
      StepKeepsInv(s, es[0]);
      RunKeepsInv(Step(s, es[0]), es[1..], t);
    }
  }

  /**
   * In every interleaving what has been sent answers a prefix of the typed lines, lacking at most the last one: for a
   * line that starts with a slash the request to stop, for any other the line itself.
   */
  lemma SentIsPrefixOfTyped(es: seq<Event>, s: State)
    requires Run(Init(), es, s)
    ensures |s.sent| <= |s.typed| <= |s.sent| + 1
    ensures forall i :: 0 <= i < |s.sent| ==>
              s.sent[i] == if |s.typed[i]| > 0 && s.typed[i][0] == '/' then Quit else Text(s.typed[i])
  {
    RunKeepsInv(Init(), es, s);
    assert forall i :: 0 <= i < |s.sent| ==> s.sent[i] == PacketOf(s.typed[..|s.sent|][i]);
  }

  /** The buffer is written while the mutex is held by the input thread, and then each time fgets delivers something. */
  lemma BufferIsWrittenUnderTheMutex(es: seq<Event>, s: State, e: Event)
    requires Run(Init(), es, s) && Enabled(s, e)
    ensures Step(s, e).buf == if e.InputTurn? && s.input == Reading then e.text else s.buf
    ensures s.input == Reading ==> s.owner == InputThread
  {
    RunKeepsInv(Init(), es, s);
  }

  /** While the main loop looks at the buffer or sends from it, no turn of the input thread changes the buffer. */
  lemma BufferIsStableWhileSending(es: seq<Event>, s: State, e: Event)
    requires Run(Init(), es, s) && (s.main == Looking || s.main.Sending?)
    requires e.InputTurn? && Enabled(s, e)
    ensures Step(s, e).buf == s.buf && Step(s, e).main == s.main
  {
    RunKeepsInv(Init(), es, s);
  }

  function MainTurns(n: nat): seq<Event> { seq(n, _ => MainTurn) }

  function MainRun(s: State, n: nat): State
    decreases n
  {
    if n == 0 then s else MainRun(MainStep(s), n - 1)
  }

  lemma {:induction false} MainRunIsRun(s: State, n: nat)
    ensures Run(s, MainTurns(n), MainRun(s, n)) && MainRun(s, n).typed == s.typed
    decreases n
  {
    if n > 0 {
      MainRunIsRun(MainStep(s), n - 1);
      assert MainTurns(n)[1..] == MainTurns(n - 1);
    }
  }

  /** How many turns the main loop needs to get past its sending. */
  function TurnsLeft(pc: MainPc): nat {
    match pc
    case Testing => 4
    case Trying => 3
    case Looking => 2
    case Sending(_) => 1
    case _ => 0
  }

  lemma {:induction false} MainRunSends(s: State)
    requires Inv(s) && s.input == Spinning && Outstanding(s)
    ensures MainRun(s, TurnsLeft(s.main)).sent == Packets(s.typed)
    decreases TurnsLeft(s.main)
  {
    var t := MainStep(s);
    StepKeepsInv(s, MainTurn);
    if s.main.Sending? {
      assert t.typed[..|t.sent|] == s.typed;
      assert MainRun(t, 0) == t;
    } else {
      MainRunSends(t);
    }
  }

  /** A completed line is not stuck: once the input thread waits, four turns of the main loop at most send it. */
  lemma WaitingLineIsSent(s: State) returns (n: nat)
    requires Inv(s) && s.input == Spinning && Outstanding(s)
    ensures n <= 4 && Run(s, seq(n, _ => MainTurn), MainRun(s, n)) && MainRun(s, n).typed == s.typed
    ensures |MainRun(s, n).sent| == |s.typed|
    ensures forall i :: 0 <= i < |s.typed| ==>
              MainRun(s, n).sent[i] == if |s.typed[i]| > 0 && s.typed[i][0] == '/' then Quit else Text(s.typed[i])
  {
    n := TurnsLeft(s.main);
    MainRunIsRun(s, n);
    MainRunSends(s);
    assert MainTurns(n) == seq(n, _ => MainTurn);
    assert forall i :: 0 <= i < |s.typed| ==> MainRun(s, n).sent[i] == PacketOf(s.typed[i]);
  }

  /** How many turns the main loop needs to release the mutex, if it holds it. */
  function TurnsHeld(pc: MainPc): nat {
    match pc
    case Looking => 4
    case Sending(_) => 3
    case Setting => 2
    case Unlocking => 1
    case _ => 0
  }

  /** How far the next line is: the input thread's way back to fgets, and the main loop's turns it waits for. */
  function Distance(s: State): nat {
    match s.input
    case Reading => 0
    case Locking => 1 + TurnsHeld(s.main)
    case Spinning => if s.ready then 8 + TurnsLeft(s.main) else 2 + TurnsHeld(s.main)
    case Releasing => 20
    case Flagging => 21
  }

  /** The next turn on that way. */
  function Toward(s: State): Event {
    if s.input == Locking && s.owner == MainLoop then MainTurn
    else if s.input == Spinning && s.ready then MainTurn
    else InputTurn("", false)
  }

  lemma TowardIsCloser(s: State)
    requires Inv(s) && s.input != Reading
    ensures Enabled(s, Toward(s)) && Step(s, Toward(s)).typed == s.typed
    ensures Distance(Step(s, Toward(s))) < Distance(s)
  {
  }

  /** The client never gets stuck: from every state a run lets the user type whatever line comes next. */
  lemma {:induction false} NextLineCanBeTyped(s: State, line: string) returns (es: seq<Event>, t: State)
    requires Inv(s)
    ensures Run(s, es, t) && t.typed == s.typed + [line] && t.buf == line
    decreases Distance(s)
  {
    var e := if s.input == Reading then InputTurn(line, true) else Toward(s);
    var rest := [];
    if s.input == Reading {
      t := Step(s, e);
    } else {
      TowardIsCloser(s);
      StepKeepsInv(s, e);
      rest, t := NextLineCanBeTyped(Step(s, e), line);
    }
    es := [e] + rest;
    assert es[1..] == rest;
  }
}
