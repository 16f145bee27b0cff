/**
 * The content-generation flow as a state machine: Start,
 * FullPromptAttempt, NameOnlyAttempt, and the terminal Success and Failed.
 * Each step sends at most one prompt; the reply to the `k`-th call
 * is `remote(k, prompt)`, as for `GenerateContent`. The lemmas show that
 * the machine always stops within three steps and that `GenerateContent`
 * sends the same prompts and returns the same text as the machine.
 */
module FallbackMachine {
  import opened Wrappers
  import opened PhpStrings
  import opened GeminiService

  datatype State = Start | FullPromptAttempt | NameOnlyAttempt | Success(text: Str) | Failed

  /** The current state and the prompts sent so far. */
  datatype Machine = Machine(state: State, sent: seq<Prompt>)

  const Initial: Machine := Machine(Start, [])

  predicate Terminal(s: State) {
    s.Success? || s.Failed?
  }

  /** The text of a reply, when it is a decoded response that has one. */
  function ReplyText(reply: Reply): (text: Option<Str>) {
    if reply.Ok? then reply.response.text else None
  }

  /** One transition of the machine. */
  function Step(cfg: Config, remote: Remote, name: Str, content: Str, m: Machine): (next: Machine) {
    match m.state
    case Start =>
      Machine(if IsEmpty(content) then NameOnlyAttempt else FullPromptAttempt, m.sent)
    case FullPromptAttempt =>
      var prompt := FullPrompt(cfg.promptTemplate, name, content);
      var reply := remote(|m.sent|, prompt);
      var next :=
        if IsProhibited(reply) then NameOnlyAttempt
        else if ReplyText(reply).Some? then Success(ReplyText(reply).value)
        else Failed;
      Machine(next, m.sent + [prompt])
    case NameOnlyAttempt =>
      var prompt := NameOnlyPrompt(cfg, name);
      var reply := remote(|m.sent|, prompt);
      Machine(if ReplyText(reply).Some? then Success(ReplyText(reply).value) else Failed, m.sent + [prompt])
    case Success(_) => m
    case Failed => m
  }

  /** `fuel` transitions from `m`. */
  function Run(cfg: Config, remote: Remote, name: Str, content: Str, m: Machine, fuel: nat): (last: Machine)
    decreases fuel
  {
    if fuel == 0 then m else Run(cfg, remote, name, content, Step(cfg, remote, name, content, m), fuel - 1)
  }

  /** Success and Failed are terminal: no transition leaves them. */
  lemma {:induction false} TerminalStays(cfg: Config, remote: Remote, name: Str, content: Str, m: Machine, fuel: nat)
    requires Terminal(m.state)
    ensures Run(cfg, remote, name, content, m, fuel) == m
    decreases fuel
  {
    if fuel > 0 {
      TerminalStays(cfg, remote, name, content, m, fuel - 1);
    }
  }

  /** Running `a + b` transitions is running `a` and then `b`. */
  lemma {:induction false} RunSplit(cfg: Config, remote: Remote, name: Str, content: Str, m: Machine, a: nat, b: nat)
    ensures Run(cfg, remote, name, content, m, a + b)
         == Run(cfg, remote, name, content, Run(cfg, remote, name, content, m, a), b)
    decreases a
  {
    if a > 0 {
      RunSplit(cfg, remote, name, content, Step(cfg, remote, name, content, m), a - 1, b);
    }
  }

  /** From the start, the machine reaches Success or Failed within three
    * transitions and stays there, having sent one or two prompts. */
  lemma Settles(cfg: Config, remote: Remote, name: Str, content: Str, fuel: nat)
    requires fuel >= 3
    ensures var m := Run(cfg, remote, name, content, Initial, fuel);
            Terminal(m.state) && 1 <= |m.sent| <= 2
  {
    var settled := Run(cfg, remote, name, content, Initial, 3);
    RunSplit(cfg, remote, name, content, Initial, 3, fuel - 3);
    TerminalStays(cfg, remote, name, content, settled, fuel - 3);
  }

  /** `GenerateContent` sends exactly the prompts the machine sends, and
    * returns text exactly when the machine ends in Success, that text. */
  lemma GenerateContentAgrees(cfg: Config, remote: Remote, name: Str, content: Str)
    ensures var o := GenerateContent(cfg, remote, name, content);
            var m := Run(cfg, remote, name, content, Initial, 3);
            && o.sent == m.sent
            && o.result == if m.state.Success? then Some(m.state.text) else None
  {
    var m1 := Step(cfg, remote, name, content, Initial);
    var m2 := Step(cfg, remote, name, content, m1);
    var m3 := Step(cfg, remote, name, content, m2);
    assert Run(cfg, remote, name, content, Initial, 3) == m3;
  }
}
