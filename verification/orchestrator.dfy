/** The orchestrator process: holds the session with the native client
    (opened lazily and retried until it succeeds) and one worker process per
    launched app, and serves the interface's commands one by one, relaying
    per-app commands to the workers. Process creation, the native client
    and the owned-apps listing inputs are parameters. */
module Orchestrator {
  import opened Common
  import LittleEndian
  import opened IpcTypes
  import opened Payloads
  import AppLister
  import Arguments

  /** A worker: its pipe pair and the command line it was started with. */
  datatype Child = Child(pipe: Pipe, args: seq<string>)

  /** The session with the native client, and whether it has been shut down. */
  datatype Session = Session(closed: bool)

  datatype State = State(session: Option<Session>, children: map<u32, Child>)

  /** What the listing of owned apps reads at a given point. */
  datatype Listing = Listing(
    native: AppLister.Native,
    cache: AppLister.CacheStatus,
    now: int,
    sources: AppLister.CatalogueSources)

  /** A started worker: the parent's ends of its pipe pair, and the handle
      values of the child's ends that go on its command line (`tx`, the end
      the worker writes to, and `rx`, the end it reads from). */
  datatype Spawned = Spawned(pipe: Pipe, tx: i32, rx: i32)

  /** The outside world, by the number of the command being served: whether
      a connection attempt succeeds, what the listing reads, and the pipes
      of a worker started then. `executable` is the program's own path. */
  datatype Env = Env(
    connect: nat -> bool,
    listing: nat -> Listing,
    spawn: (nat, u32) -> Spawned,
    executable: string)

  /** The codecs of commands and replies. */
  datatype Codecs = Codecs(commands: Codec<SteamCommand>, replies: Codec<Reply>)

  function Answer(cs: Codecs, r: Reply): bytes {
    SamSerialize(cs.replies, r)
  }

  function Acknowledged(cs: Codecs): bytes {
    Answer(cs, Success(Flag(true)))
  }

  // ---------------------------------------------------------------------
  // Relaying to a worker

  /** `send_app_command`: writes the command to the worker and reads one
      framed reply back, returning it byte for byte (length prefix and
      body). A failed write or a short read gives the framed
      `SocketCommunicationFailed` error instead; a short read drains the
      worker's stream. */
  function SendAppCommand(cs: Codecs, p: Pipe, cmd: SteamCommand): (r: (bytes, Pipe))
    ensures !p.writable ==> r == (Answer(cs, Error(SocketCommunicationFailed)), p)
    ensures p.writable ==> r.1.sent == p.sent + SamSerialize(cs.commands, cmd) && r.1.writable
    ensures p.writable && ReadFrame(p.incoming).Ok? ==>
      var (body, rest) := ReadFrame(p.incoming).value;
      && r.0 == p.incoming[..UsizeBytes + |body|]
      && r.1.incoming == rest
    ensures p.writable && ReadFrame(p.incoming).Err? ==>
      r.0 == Answer(cs, Error(SocketCommunicationFailed)) && r.1.incoming == []
  {
    var (written, p1) := Write(p, SamSerialize(cs.commands, cmd));
    if !written then (Answer(cs, Error(SocketCommunicationFailed)), p1)
    else
      match ReadFrame(p1.incoming)
      case Err(_) => (Answer(cs, Error(SocketCommunicationFailed)), p1.(incoming := []))
      case Ok((body, rest)) => (p1.incoming[..UsizeBytes + |body|], p1.(incoming := rest))
  }

  /** A worker's framed reply is relayed exactly, and whatever it sent
      after that reply stays in its stream for the next command. */
  lemma RelayIsExact(cs: Codecs, p: Pipe, cmd: SteamCommand, payload: bytes, more: bytes)
    requires p.writable && p.incoming == Frame(payload) + more
    requires |payload| < LittleEndian.Pow256(UsizeBytes)
    ensures SendAppCommand(cs, p, cmd).0 == Frame(payload)
    ensures SendAppCommand(cs, p, cmd).1.incoming == more
  {
    ReadFrameOfFrame(payload, more);
    assert p.incoming[..UsizeBytes + |payload|] == Frame(payload);
  }

  /** Every worker, sent Shutdown. */
  function ShutdownAll(cs: Codecs, children: map<u32, Child>): (r: map<u32, Child>)
    ensures r.Keys == children.Keys
    ensures forall id :: id in r ==>
      r[id] == children[id].(pipe := SendAppCommand(cs, children[id].pipe, Shutdown).1)
  {
    map id | id in children :: children[id].(pipe := SendAppCommand(cs, children[id].pipe, Shutdown).1)
  }

  // ---------------------------------------------------------------------
  // One command

  /** What one command does: the bytes written back, the workers after it,
      whether the loop goes on, and the workers it took out of the map
      (after telling them to shut down). */
  datatype Processed = Processed(reply: bytes, children: map<u32, Child>, proceed: bool, retired: map<u32, Child>)

  /** `process_command` for a connected orchestrator. Only Shutdown ends
      the loop; a worker exists afterwards only if it existed before or was
      just launched. */
  function ProcessCommand(env: Env, step: nat, cs: Codecs, children: map<u32, Child>, cmd: SteamCommand): (r: Processed)
    ensures !r.proceed <==> cmd.Shutdown?
    ensures r.children.Keys <= children.Keys + (if cmd.LaunchApp? then {cmd.appId} else {})
    ensures r.retired.Keys <= children.Keys && r.retired.Keys !! r.children.Keys
  {
    match cmd
    case GetOwnedAppList =>
      var l := env.listing(step);
      var reply := match AppLister.GetOwnedApps(l.native, l.cache, l.now, l.sources)
        case Ok(apps) => Success(Apps(apps))
        case Err(e) => Error(e);
      Processed(Answer(cs, reply), children, true, map[])
    case LaunchApp(id) =>
      if id in children then Processed(Answer(cs, Error(UnknownError)), children, true, map[])
      else
        var started := env.spawn(step, id);
        var child := Child(started.pipe, Arguments.WorkerCommandLine(env.executable, id, started.tx, started.rx));
        Processed(Acknowledged(cs), children[id := child], true, map[])
    case StopApp(id) =>
      if id !in children then Processed(Answer(cs, Error(UnknownError)), children, true, map[])
      else
        var (reply, p) := SendAppCommand(cs, children[id].pipe, Shutdown);
        Processed(reply, children - {id}, true, map[id := children[id].(pipe := p)])
    case StopApps =>
      Processed(Acknowledged(cs), map[], true, ShutdownAll(cs, children))
    case Shutdown =>
      Processed(Acknowledged(cs), ShutdownAll(cs, children), false, map[])
    case Status =>
      Processed(Acknowledged(cs), children, true, map[])
    case _ =>
      var id := TargetApp(cmd).value;
      if id in children then
        var (reply, p) := SendAppCommand(cs, children[id].pipe, cmd);
        Processed(reply, children[id := children[id].(pipe := p)], true, map[])
      else Processed(Answer(cs, Error(AppMismatchError)), children, true, map[])
  }

  /** Launching: a running app is refused and nothing changes; otherwise
      exactly that app gains a worker, whose command line reads back as
      worker mode for that app with both of its pipe handles, and the reply
      is `true`. */
  lemma LaunchAppRules(env: Env, step: nat, cs: Codecs, children: map<u32, Child>, id: u32)
    ensures var r := ProcessCommand(env, step, cs, children, LaunchApp(id));
      if id in children then
        r.reply == Answer(cs, Error(UnknownError)) && r.children == children
      else
        && r.reply == Answer(cs, Success(Flag(true)))
        && r.children.Keys == children.Keys + {id}
        && (forall k :: k in children ==> r.children[k] == children[k])
        && r.children[id].pipe == env.spawn(step, id).pipe
        && r.children[id].args == Arguments.WorkerCommandLine(env.executable, id, env.spawn(step, id).tx, env.spawn(step, id).rx)
        && Arguments.ParseCliArguments(r.children[id].args) ==
             Arguments.Parsed(Arguments.CliArguments(false, id, Some(env.spawn(step, id).rx), Some(env.spawn(step, id).tx)))
  {
    var started := env.spawn(step, id);
    if id !in children {
      var child := Child(started.pipe, Arguments.WorkerCommandLine(env.executable, id, started.tx, started.rx));
      assert ProcessCommand(env, step, cs, children, LaunchApp(id)).children == children[id := child];
      Arguments.WorkerCommandLineRoundTrip(env.executable, id, started.tx, started.rx);
    }
  }

  /** Stopping one app: an app without a worker is refused and nothing
      changes; otherwise only that worker leaves the map, it is sent
      Shutdown, and its reply is relayed. */
  lemma StopAppRules(env: Env, step: nat, cs: Codecs, children: map<u32, Child>, id: u32)
    ensures var r := ProcessCommand(env, step, cs, children, StopApp(id));
      if id !in children then
        r.reply == Answer(cs, Error(UnknownError)) && r.children == children && r.retired == map[]
      else
        var (reply, p) := SendAppCommand(cs, children[id].pipe, Shutdown);
        && r.reply == reply
        && r.children.Keys == children.Keys - {id}
        && (forall k :: k in r.children ==> r.children[k] == children[k])
        && r.retired == map[id := children[id].(pipe := p)]
  {
  }

  /** Stopping all apps: every worker is sent Shutdown and leaves the map,
      and the reply is `true`. Shutting down sends Shutdown to every worker
      the same way, keeps the map, and ends the loop. */
  lemma StopAllRules(env: Env, step: nat, cs: Codecs, children: map<u32, Child>)
    ensures var r := ProcessCommand(env, step, cs, children, StopApps);
      && r.reply == Answer(cs, Success(Flag(true)))
      && r.children == map[] && r.proceed
      && r.retired.Keys == children.Keys
      && (forall k :: k in children && children[k].pipe.writable ==>
            r.retired[k].pipe.sent == children[k].pipe.sent + SamSerialize(cs.commands, Shutdown))
    ensures var r := ProcessCommand(env, step, cs, children, Shutdown);
      && r.reply == Answer(cs, Success(Flag(true)))
      && r.children.Keys == children.Keys && !r.proceed
      && (forall k :: k in children && children[k].pipe.writable ==>
            r.children[k].pipe.sent == children[k].pipe.sent + SamSerialize(cs.commands, Shutdown))
  {
  }

  /** Per-app commands go, unchanged, to the app's worker and its reply is
      relayed; only that worker's pipes change. Without a worker the reply
      is `AppMismatchError` and nothing changes. */
  lemma ForwardRules(env: Env, step: nat, cs: Codecs, children: map<u32, Child>, cmd: SteamCommand)
    requires IsPerAppCommand(cmd)
    ensures var r := ProcessCommand(env, step, cs, children, cmd);
      var id := TargetApp(cmd).value;
      && r.proceed && r.retired == map[]
      && (id !in children ==> r.reply == Answer(cs, Error(AppMismatchError)) && r.children == children)
      && (id in children ==>
            var (reply, p) := SendAppCommand(cs, children[id].pipe, cmd);
            && r.reply == reply
            && r.children == children[id := children[id].(pipe := p)])
  {
  }

  /** The owned-apps listing is answered with the listing's apps or its
      error, and changes no worker. */
  lemma OwnedAppsRules(env: Env, step: nat, cs: Codecs, children: map<u32, Child>)
    ensures var r := ProcessCommand(env, step, cs, children, GetOwnedAppList);
      var l := env.listing(step);
      var listed := AppLister.GetOwnedApps(l.native, l.cache, l.now, l.sources);
      && r.children == children && r.proceed
      && r.reply == Answer(cs, if listed.Ok? then Success(Apps(listed.value)) else Error(listed.error))
  {
  }

  // ---------------------------------------------------------------------
  // The loop

  datatype Next = Continue | ExitZero | Halt

  /** One turn of the loop after a command is read. */
  datatype Turn = Turn(out: Pipe, state: State, next: Next)

  /** Without a session, Shutdown ends the loop at once, and any other
      command first tries to connect: on failure it is answered with the
      connection error and the next command tries again. With a session the
      command is processed. A reply that cannot be written stops the
      process. */
  function Serve(env: Env, step: nat, cs: Codecs, s: State, cmd: SteamCommand, out: Pipe): (t: Turn)
    ensures t.next == Halt <==> !out.writable
    ensures s.session.Some? ==> t.state.session.Some?
    ensures t.next == ExitZero <==> out.writable && cmd.Shutdown?
  {
    if s.session.None? && cmd.Shutdown? then
      var (written, out') := Write(out, Acknowledged(cs));
      Turn(out', s, if written then ExitZero else Halt)
    else if s.session.None? && !env.connect(step) then
      var (written, out') := Write(out, Answer(cs, Error(SteamConnectionFailed)));
      Turn(out', s, if written then Continue else Halt)
    else
      var session := if s.session.Some? then s.session.value else Session(false);
      var r := ProcessCommand(env, step, cs, s.children, cmd);
      var session' := if cmd.Shutdown? then session.(closed := true) else session;
      var (written, out') := Write(out, r.reply);
      Turn(out', State(Some(session'), r.children), if !written then Halt else if r.proceed then Continue else ExitZero)
  }

  /** The session rules: without one, Shutdown is answered `true` and
      nothing else happens; a failed attempt leaves no session and answers
      the connection error; a successful one keeps the session from then
      on. */
  lemma SessionRules(env: Env, step: nat, cs: Codecs, s: State, cmd: SteamCommand, out: Pipe)
    requires out.writable
    ensures s.session.None? && cmd.Shutdown? ==>
      Serve(env, step, cs, s, cmd, out) == Turn(out.(sent := out.sent + Acknowledged(cs)), s, ExitZero)
    ensures s.session.None? && !cmd.Shutdown? && !env.connect(step) ==>
      Serve(env, step, cs, s, cmd, out) ==
        Turn(out.(sent := out.sent + Answer(cs, Error(SteamConnectionFailed))), s, Continue)
    ensures s.session.None? && !cmd.Shutdown? && env.connect(step) ==>
      var t := Serve(env, step, cs, s, cmd, out);
      t.state.session == Some(Session(false)) &&
      t.out == out.(sent := out.sent + ProcessCommand(env, step, cs, s.children, cmd).reply)
  {
  }

  /** How the orchestrator ends: with exit code 0, or halted by a failed
      read or write. */
  datatype Outcome = Exited(code: int, out: Pipe, state: State) | Halted(out: Pipe, state: State)

  /** `orchestrator`: serves commands until Shutdown. A command that
      cannot be read stops the process. */
  function Run(env: Env, step: nat, cs: Codecs, s: State, input: bytes, out: Pipe): (o: Outcome)
    decreases |input|
  {
    match FromRecver(cs.commands, input)
    case Err(_) => Halted(out, s)
    case Ok((cmd, rest)) =>
      var t := Serve(env, step, cs, s, cmd, out);
      match t.next
      case Continue => Run(env, step + 1, cs, t.state, rest, t.out)
      case ExitZero => Exited(0, t.out, t.state)
      case Halt => Halted(t.out, t.state)
  }

  /** The orchestrator exits only with code 0, and a session, once open,
      is never dropped. */
  lemma {:induction false} RunKeepsSession(env: Env, step: nat, cs: Codecs, s: State, input: bytes, out: Pipe)
    ensures Run(env, step, cs, s, input, out).Exited? ==> Run(env, step, cs, s, input, out).code == 0
    ensures s.session.Some? ==> Run(env, step, cs, s, input, out).state.session.Some?
    decreases |input|
  {
    match FromRecver(cs.commands, input)
    case Err(_) =>
    case Ok((cmd, rest)) =>
      var t := Serve(env, step, cs, s, cmd, out);
      if t.next == Continue {
        RunKeepsSession(env, step + 1, cs, t.state, rest, t.out);
      }
  }

  /** Framed commands are served in order: the orchestrator exits with 0
      at the first Shutdown, and halts when the commands run out without
      one, provided its replies can be written. */
  lemma {:induction false} RunEndsAtShutdown(env: Env, step: nat, cs: Codecs, s: State,
                                             cmds: seq<SteamCommand>, tail: bytes, out: Pipe)
    requires RoundTrips(cs.commands) && Frameable(cs.commands, cmds)
    requires FromRecver(cs.commands, tail).Err? && out.writable
    ensures var o := Run(env, step, cs, s, SerializeAll(cs.commands, cmds) + tail, out);
      o.Exited? <==> Shutdown in cmds
    decreases |cmds|
  {
    var input := SerializeAll(cs.commands, cmds) + tail;
    if |cmds| == 0 {
      assert input == tail;
    } else {
      var rest := SerializeAll(cs.commands, cmds[1..]) + tail;
      assert input == SamSerialize(cs.commands, cmds[0]) + rest;
      FromRecverSamSerialize(cs.commands, cmds[0], rest);
      var t := Serve(env, step, cs, s, cmds[0], out);
      assert cmds == [cmds[0]] + cmds[1..];
      if !cmds[0].Shutdown? {
        assert Frameable(cs.commands, cmds[1..]) by {
          assert forall i :: 0 <= i < |cmds| - 1 ==> cmds[1..][i] == cmds[i + 1];
        }
        assert t.out.writable;
        RunEndsAtShutdown(env, step + 1, cs, t.state, cmds[1..], tail, t.out);
      }
    }
  }
}
