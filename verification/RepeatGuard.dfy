/** `ToolRepeatGuard` of `harness-runtime/src/agent_loop.rs`: counters against the full history. */
module RepeatGuard {
  import opened Options
  import opened Text

  // ---------- signatures ----------

  predicate IsSearchLike(name: string) {
    var n := LowerAscii(name);
    || Contains(n, "search") || Contains(n, "grep") || n == "find" || Contains(n, "where") || Contains(n, "glob")
    || n == "rg" || Contains(n, "locate") || Contains(n, "ack")
  }

  /** The tool's name stands in front of the first colon. */
  function ToolName(signature: string): string {
    var colon := Find(signature, ":");
    if colon == -1 then signature else signature[..colon]
  }

  predicate IsLocate(signature: string) {
    IsSearchLike(ToolName(signature)) || (ToolName(signature) == "fs" && Contains(signature, "\"op\":\"list\""))
  }

  predicate IsWrite(signature: string) {
    "edit:" <= signature || ("fs:" <= signature && Contains(signature, "\"op\":\"write\""))
  }

  /** The call of a tool as the guard sees it. */
  function Signature(name: string, args: string): string {
    name + ":" + args
  }

  lemma {:induction false} SignatureHas(name: string, args: string, p: string)
    requires p != "" && p[0] == '"' && '"' !in name
    ensures Contains(Signature(name, args), p) <==> Contains(args, p)
  {
    var front := name + ":";
    forall i | 0 <= i < |front|
      ensures !At(front + args, p, i)
    {
      AtChar(front + args, p, i, 0);
      assert (front + args)[i] == front[i];
      assert i < |name| ==> front[i] == name[i];
    }
    FindSkip(front, args, p);
  }

  lemma {:induction false} ToolNameIs(name: string, args: string)
    requires ':' !in name
    ensures ToolName(Signature(name, args)) == name
  {
    var s := Signature(name, args);
    assert s[|name|..|name| + 1] == ":";
    forall j | 0 <= j < |name|
      ensures !At(s, ":", j)
    {
      AtChar(s, ":", j, 0);
      assert s[j] == name[j];
    }
    FindIs(s, ":", |name|);
  }

  /** Which calls change the workspace and which ones only look for something, by tool and arguments. */
  lemma {:induction false} SignatureKinds(name: string, args: string)
    requires ':' !in name && '"' !in name
    ensures IsWrite(Signature(name, args)) <==> name == "edit" || (name == "fs" && Contains(args, "\"op\":\"write\""))
    ensures IsLocate(Signature(name, args)) <==>
              IsSearchLike(name) || (name == "fs" && Contains(args, "\"op\":\"list\""))
  {
    hide Contains, IsSearchLike;
    ToolNameIs(name, args);
    SignatureHas(name, args, "\"op\":\"write\"");
    SignatureHas(name, args, "\"op\":\"list\"");
    NameInFront(name, args, "edit");
    NameInFront(name, args, "fs");
  }

  lemma {:induction false} NameInFront(name: string, args: string, tool: string)
    requires ':' !in name && ':' !in tool
    ensures tool + ":" <= Signature(name, args) <==> name == tool
  {
    var s, t := Signature(name, args), tool + ":";
    assert forall i :: 0 <= i < |name| ==> name[i] in name && s[i] == name[i];
    assert forall i :: 0 <= i < |tool| ==> tool[i] in tool && t[i] == tool[i];
    assert s[|name|] == ':' && t[|tool|] == ':';
    if t <= s {
      assert forall i :: 0 <= i < |t| ==> t[i] == s[i];
      assert |name| == |tool|;
      assert name == tool;
    }
  }

  // ---------- what happened ----------

  datatype Event =
    | Result(signature: string, ok: bool, content: string)
    | Recovery(signature: string)

  predicate ChangesWorkspace(e: Event) {
    e.Result? && e.ok && IsWrite(e.signature)
  }

  function LastResult(history: seq<Event>): Option<Event> {
    if history == [] then None
    else if history[|history| - 1].Result? then Some(history[|history| - 1])
    else LastResult(history[..|history| - 1])
  }

  /** Results of a call since the last successful write, which counts itself. */
  function CountSinceWrite(history: seq<Event>, signature: string): nat {
    if history == [] then 0
    else
      var last := history[|history| - 1];
      var here := if last.Result? && last.signature == signature then 1 else 0;
      if ChangesWorkspace(last) then here else here + CountSinceWrite(history[..|history| - 1], signature)
  }

  /** Length of the unbroken run of locate calls at the end. */
  function LocateRun(history: seq<Event>): nat {
    if history == [] then 0
    else
      var last := history[|history| - 1];
      var before := history[..|history| - 1];
      if last.Recovery? then LocateRun(before)
      else if IsLocate(last.signature) then 1 + LocateRun(before)
      else 0
  }

  /** A result that differs from the one before it, or follows a change of the workspace. */
  predicate ChangesPath(before: seq<Event>, e: Event, hash: (bool, string) -> nat) {
    && e.Result?
    && (ChangesWorkspace(e)
        || match LastResult(before)
           case None => true
           case Some(p) =>
             !p.Result? || p.signature != e.signature || hash(p.ok, p.content) != hash(e.ok, e.content))
  }

  /** Recoveries of a call since the investigation last took another path. */
  function Recoveries(history: seq<Event>, signature: string, hash: (bool, string) -> nat): nat {
    if history == [] then 0
    else
      var last := history[|history| - 1];
      var before := history[..|history| - 1];
      if ChangesPath(before, last, hash) then 0
      else Recoveries(before, signature, hash) + if last == Recovery(signature) then 1 else 0
  }

  const MAX_SAME_CALLS := 2
  const MAX_LOCATE_CALLS := 10

  /** When a call is worth a warning, in terms of everything that happened. */
  predicate ShouldFlag(history: seq<Event>, signature: string) {
    || (LastResult(history).Some? && LastResult(history).value.signature == signature && LastOk(history))
    || CountSinceWrite(history, signature) >= MAX_SAME_CALLS
    || (IsLocate(signature) && LocateRun(history) >= MAX_LOCATE_CALLS)
  }

  predicate LastOk(history: seq<Event>) {
    match LastResult(history)
    case Some(Result(_, ok, _)) => ok
    case _ => false
  }

  // ---------- what the guard keeps of it ----------

  datatype Seen = Seen(signature: string, fingerprint: nat, ok: bool)

  datatype Guard = Guard(
    previous: Option<Seen>,
    recoveryAttempts: map<string, nat>,
    cumulative: map<string, nat>,
    consecutiveLocate: nat)

  const NEW_GUARD := Guard(None, map[], map[], 0)

  /** `u8::saturating_add(1)` */
  function SatInc(n: nat): nat {
    if n >= 255 then 255 else n + 1
  }

  function Capped(n: nat): nat {
    if n >= 255 then 255 else n
  }

  function CountOf(m: map<string, nat>, signature: string): nat {
    if signature in m then m[signature] else 0
  }

  function AfterWrite(g: Guard, e: Event): Guard {
    if ChangesWorkspace(e) then Guard(None, map[], map[], g.consecutiveLocate) else g
  }

  predicate PathDiffers(g: Guard, e: Event, hash: (bool, string) -> nat)
    requires e.Result?
  {
    match g.previous
    case None => true
    case Some(p) => p.signature != e.signature || p.fingerprint != hash(e.ok, e.content)
  }

  function RecordResult(g0: Guard, e: Event, hash: (bool, string) -> nat): Guard
    requires e.Result?
  {
    var fingerprint := hash(e.ok, e.content);
    var g := AfterWrite(g0, e);
    Guard(
      Some(Seen(e.signature, fingerprint, e.ok)),
      if PathDiffers(g, e, hash) then map[] else g.recoveryAttempts,
      g.cumulative[e.signature := SatInc(CountOf(g.cumulative, e.signature))],
      if IsLocate(e.signature) then SatInc(g.consecutiveLocate) else 0)
  }

  function NoteRecovery(g: Guard, signature: string): Guard {
    g.(recoveryAttempts := g.recoveryAttempts[signature := SatInc(CountOf(g.recoveryAttempts, signature))])
  }

  function Noted(g: Guard, e: Event, hash: (bool, string) -> nat): Guard {
    match e
    case Result(_, _, _) => RecordResult(g, e, hash)
    case Recovery(signature) => NoteRecovery(g, signature)
  }

  function After(history: seq<Event>, hash: (bool, string) -> nat): Guard {
    if history == [] then NEW_GUARD
    else Noted(After(history[..|history| - 1], hash), history[|history| - 1], hash)
  }

  predicate Flags(g: Guard, signature: string) {
    || (g.previous.Some? && g.previous.value.signature == signature && g.previous.value.ok)
    || (signature in g.cumulative && g.cumulative[signature] >= MAX_SAME_CALLS)
    || (IsLocate(signature) && g.consecutiveLocate >= MAX_LOCATE_CALLS)
  }

  // ---------- the guard against the history ----------

  ghost predicate PreviousIs(g: Guard, history: seq<Event>, hash: (bool, string) -> nat) {
    match LastResult(history)
    case None => g.previous.None?
    case Some(p) => p.Result? && g.previous == Some(Seen(p.signature, hash(p.ok, p.content), p.ok))
  }

  /** The guard is a faithful summary of the history, up to the ceiling of its counters. */
  ghost predicate Summarizes(g: Guard, history: seq<Event>, hash: (bool, string) -> nat) {
    && PreviousIs(g, history, hash)
    && (forall s :: CountOf(g.cumulative, s) == Capped(CountSinceWrite(history, s)))
    && g.consecutiveLocate == Capped(LocateRun(history))
    && (forall s :: CountOf(g.recoveryAttempts, s) == Capped(Recoveries(history, s, hash)))
  }

  /** The history functions, one event further. */
  lemma {:induction false} OneMore(before: seq<Event>, e: Event, s: string, hash: (bool, string) -> nat)
    ensures var here := if e.Result? && e.signature == s then 1 else 0;
            CountSinceWrite(before + [e], s)
            == if ChangesWorkspace(e) then here else here + CountSinceWrite(before, s)
    ensures LocateRun(before + [e])
            == if e.Recovery? then LocateRun(before) else if IsLocate(e.signature) then 1 + LocateRun(before) else 0
    ensures Recoveries(before + [e], s, hash)
            == if ChangesPath(before, e, hash) then 0
               else Recoveries(before, s, hash) + if e == Recovery(s) then 1 else 0
    ensures LastResult(before + [e]) == if e.Result? then Some(e) else LastResult(before)
  {
    assert (before + [e])[..|before|] == before;
  }

  lemma {:induction false} PathAgrees(g: Guard, before: seq<Event>, e: Event, hash: (bool, string) -> nat)
    requires PreviousIs(g, before, hash) && e.Result?
    ensures ChangesPath(before, e, hash) <==> PathDiffers(AfterWrite(g, e), e, hash)
    ensures ChangesWorkspace(e) ==> ChangesPath(before, e, hash)
  {
    hide IsWrite;
  }

  lemma {:induction false} NotedSummarizes(g: Guard, before: seq<Event>, e: Event, hash: (bool, string) -> nat)
    requires Summarizes(g, before, hash)
    ensures Summarizes(Noted(g, e, hash), before + [e], hash)
  {
    hide IsLocate, IsWrite, CountSinceWrite, Recoveries, LocateRun, LastResult, ChangesPath, PathDiffers;
    var history := before + [e];
    OneMore(before, e, "", hash);
    if e.Result? {
      PathAgrees(g, before, e, hash);
    }
    forall s
      ensures CountOf(Noted(g, e, hash).cumulative, s) == Capped(CountSinceWrite(history, s))
      ensures CountOf(Noted(g, e, hash).recoveryAttempts, s) == Capped(Recoveries(history, s, hash))
    {
      OneMore(before, e, s, hash);
      OnlyResultsChange(before, e, hash);
    }
  }

  lemma {:induction false} OnlyResultsChange(before: seq<Event>, e: Event, hash: (bool, string) -> nat)
    ensures ChangesPath(before, e, hash) ==> e.Result?
  {
  }

  lemma {:induction false} AfterSummarizes(history: seq<Event>, hash: (bool, string) -> nat)
    ensures Summarizes(After(history, hash), history, hash)
  {
    hide Summarizes, Noted;
    if history == [] {
      NewSummarizes(hash);
    } else {
      var n := |history| - 1;
      AfterSummarizes(history[..n], hash);
      NotedSummarizes(After(history[..n], hash), history[..n], history[n], hash);
      assert history == history[..n] + [history[n]];
    }
  }

  lemma {:induction false} NewSummarizes(hash: (bool, string) -> nat)
    ensures Summarizes(NEW_GUARD, [], hash)
  {
  }

  /** For every history: the guard warns exactly when the history calls for it. */
  lemma {:induction false} FlagsExactly(history: seq<Event>, signature: string, hash: (bool, string) -> nat)
    ensures Flags(After(history, hash), signature) <==> ShouldFlag(history, signature)
  {
    hide IsLocate, CountSinceWrite, LocateRun;
    AfterSummarizes(history, hash);
    var g := After(history, hash);
    assert CountOf(g.cumulative, signature) == Capped(CountSinceWrite(history, signature));
  }

  // ---------- the object ----------

  class ToolRepeatGuard {
    const hash: (bool, string) -> nat
    var previous: Option<Seen>
    var recoveryAttempts: map<string, nat>
    var cumulative: map<string, nat>
    var consecutiveLocate: nat

    ghost function Value(): Guard
      reads this
    {
      Guard(previous, recoveryAttempts, cumulative, consecutiveLocate)
    }

    constructor (hash: (bool, string) -> nat)
      ensures Value() == NEW_GUARD && this.hash == hash
    {
      this.hash := hash;
      previous, recoveryAttempts, cumulative, consecutiveLocate := None, map[], map[], 0;
    }

    method FlagsRepeat(signature: string) returns (flagged: bool)
      ensures flagged == Flags(Value(), signature)
    {
      var repeatedSuccess := previous.Some? && previous.value.signature == signature && previous.value.ok;
      var retriesExhausted := signature in cumulative && cumulative[signature] >= MAX_SAME_CALLS;
      var probesExhausted := IsLocate(signature) && consecutiveLocate >= MAX_LOCATE_CALLS;
      flagged := repeatedSuccess || retriesExhausted || probesExhausted;
    }

    method Record(signature: string, ok: bool, content: string)
      modifies this
      ensures Value() == RecordResult(old(Value()), Result(signature, ok, content), hash)
    {
      hide IsWrite, IsLocate;
      var fingerprint := hash(ok, content);
      if ok && IsWrite(signature) {
        cumulative, recoveryAttempts, previous := map[], map[], None;
      }
      if previous.None? || previous.value.signature != signature || previous.value.fingerprint != fingerprint {
        recoveryAttempts := map[];
      }
      previous := Some(Seen(signature, fingerprint, ok));
      if IsLocate(signature) {
        consecutiveLocate := SatInc(consecutiveLocate);
      } else {
        consecutiveLocate := 0;
      }
      cumulative := cumulative[signature := SatInc(CountOf(cumulative, signature))];
    }

    method NoteAttempt(signature: string) returns (attempts: nat)
      modifies this`recoveryAttempts
      ensures Value() == NoteRecovery(old(Value()), signature)
      ensures attempts == recoveryAttempts[signature]
    {
      attempts := SatInc(CountOf(recoveryAttempts, signature));
      recoveryAttempts := recoveryAttempts[signature := attempts];
    }
  }

  /** Driving the object through a history: its answers are the history's. */
  method Replay(history: seq<Event>, hash: (bool, string) -> nat, signature: string) returns (flagged: bool)
    ensures flagged <==> ShouldFlag(history, signature)
  {
    hide Noted, ShouldFlag, Flags;
    var tracker := new ToolRepeatGuard(hash);
    for i := 0 to |history|
      invariant tracker.hash == hash && tracker.Value() == After(history[..i], hash)
    {
      assert history[..i + 1][..i] == history[..i];
      NotedIs(tracker.Value(), history[i], hash);
      match history[i] {
        case Result(s, ok, content) =>
          tracker.Record(s, ok, content);
        case Recovery(s) =>
          var attempts := tracker.NoteAttempt(s);
      }
    }
    assert history[..|history|] == history;
    flagged := tracker.FlagsRepeat(signature);
    FlagsExactly(history, signature, hash);
  }

  lemma {:induction false} NotedIs(g: Guard, e: Event, hash: (bool, string) -> nat)
    ensures e.Result? ==> Noted(g, e, hash) == RecordResult(g, e, hash)
    ensures e.Recovery? ==> Noted(g, e, hash) == NoteRecovery(g, e.signature)
  {
  }
}
