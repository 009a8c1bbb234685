/** The per-app worker process: reads framed commands from its parent,
    answers each with one framed reply, and serves only its own app. The
    app manager (the native client's view of the app) is a parameter whose
    state is threaded through the calls. */
module AppWorker {
  import opened Common
  import LittleEndian
  import opened IpcTypes
  import opened Payloads
  import StatDefinitions
  import Float

  /** The app manager's operations, each taking and returning its state. */
  datatype Manager<!S> = Manager(
    getAchievements: S -> (Result<seq<StatDefinitions.AchievementInfo>, SamError>, S),
    getStatistics: S -> (Result<seq<StatDefinitions.StatInfo>, SamError>, S),
    setAchievement: (S, string, bool) -> (Result<(), SamError>, S),
    setStatI32: (S, string, i32) -> (Result<bool, SamError>, S),
    setStatF32: (S, string, Float.F32) -> (Result<bool, SamError>, S),
    resetAllStats: (S, bool) -> (Result<bool, SamError>, S),
    disconnect: S -> S)

  /** The connection made once at start: a manager, or a failure that
      lasts for the life of the process. */
  datatype Connection<S> = Connected(manager: S) | Failed

  /** `check_app_id`: the mismatch reply, or `None` when the command is for
      this worker's app. */
  function CheckAppId(requested: u32, appId: u32): (r: Option<Reply>)
    ensures r.None? <==> requested == appId
    ensures r.Some? ==> r.value == Error(AppMismatchError)
  {
    if requested != appId then Some(Error(AppMismatchError)) else None
  }

  /** A manager result as a reply. */
  function Respond<T>(res: Result<T, SamError>, wrap: T -> Payload): (r: Reply)
    ensures r.Error? <==> res.Err?
    ensures res.Err? ==> r.error == res.error
    ensures res.Ok? ==> r.data == wrap(res.value)
  {
    match res
    case Ok(v) => Success(wrap(v))
    case Err(e) => Error(e)
  }

  /** What one command does: its reply, the connection after it, and
      whether the loop goes on. */
  datatype Dispatched<S> = Dispatched(reply: Reply, conn: Connection<S>, proceed: bool)

  /** The answer to one command. */
  function Dispatch<S>(m: Manager<S>, conn: Connection<S>, appId: u32, cmd: SteamCommand): (d: Dispatched<S>)
    // a failed connection answers everything with the same error
    ensures conn.Failed? ==> d == Dispatched(Error(SteamConnectionFailed), conn, true)
    // only a connected worker stops, and only on Shutdown
    ensures !d.proceed <==> conn.Connected? && cmd.Shutdown?
    ensures conn.Connected? && cmd.Shutdown? ==>
      d.reply == Success(Flag(true)) && d.conn == Connected(m.disconnect(conn.manager))
    ensures conn.Connected? && cmd.Status? ==> d == Dispatched(Success(Flag(true)), conn, true)
    // another app's command never reaches the manager
    ensures conn.Connected? && TargetApp(cmd).Some? && TargetApp(cmd).value != appId ==>
      d == Dispatched(Error(AppMismatchError), conn, true)
    // commands meant for the orchestrator are refused
    ensures conn.Connected? && (cmd.GetOwnedAppList? || cmd.LaunchApp? || cmd.StopApp? || cmd.StopApps?) ==>
      d == Dispatched(Error(UnknownError), conn, true)
    ensures d.conn.Connected? <==> conn.Connected?
  {
    match conn
    case Failed => Dispatched(Error(SteamConnectionFailed), conn, true)
    case Connected(s) =>
      match cmd
      case Status => Dispatched(Success(Flag(true)), conn, true)
      case Shutdown => Dispatched(Success(Flag(true)), Connected(m.disconnect(s)), false)
      case GetAchievements(id) =>
        if CheckAppId(id, appId).Some? then Dispatched(CheckAppId(id, appId).value, conn, true)
        else
          var (res, s') := m.getAchievements(s);
          Dispatched(Respond(res, a => Achievements(a)), Connected(s'), true)
      case GetStats(id) =>
        if CheckAppId(id, appId).Some? then Dispatched(CheckAppId(id, appId).value, conn, true)
        else
          var (res, s') := m.getStatistics(s);
          Dispatched(Respond(res, st => Stats(st)), Connected(s'), true)
      case SetAchievement(id, unlocked, achievementId) =>
        if CheckAppId(id, appId).Some? then Dispatched(CheckAppId(id, appId).value, conn, true)
        else
          var (res, s') := m.setAchievement(s, achievementId, unlocked);
          Dispatched(Respond(res, _ => Flag(true)), Connected(s'), true)
      case SetIntStat(id, statId, value) =>
        if CheckAppId(id, appId).Some? then Dispatched(CheckAppId(id, appId).value, conn, true)
        else
          var (res, s') := m.setStatI32(s, statId, value);
          Dispatched(Respond(res, b => Flag(b)), Connected(s'), true)
      case SetFloatStat(id, statId, value) =>
        if CheckAppId(id, appId).Some? then Dispatched(CheckAppId(id, appId).value, conn, true)
        else
          var (res, s') := m.setStatF32(s, statId, value);
          Dispatched(Respond(res, b => Flag(b)), Connected(s'), true)
      case ResetStats(id, achievementsToo) =>
        if CheckAppId(id, appId).Some? then Dispatched(CheckAppId(id, appId).value, conn, true)
        else
          var (res, s') := m.resetAllStats(s, achievementsToo);
          Dispatched(Respond(res, b => Flag(b)), Connected(s'), true)
      case _ => Dispatched(Error(UnknownError), conn, true)
  }

  /** The manager's answer, for a command this worker serves. */
  function ManagerCall<S>(m: Manager<S>, s: S, cmd: SteamCommand): (Reply, S)
    requires IsPerAppCommand(cmd)
  {
    match cmd
    case GetAchievements(_) => var (res, s') := m.getAchievements(s); (Respond(res, a => Achievements(a)), s')
    case GetStats(_) => var (res, s') := m.getStatistics(s); (Respond(res, st => Stats(st)), s')
    case SetAchievement(_, unlocked, achievementId) =>
      var (res, s') := m.setAchievement(s, achievementId, unlocked); (Respond(res, _ => Flag(true)), s')
    case SetIntStat(_, statId, value) => var (res, s') := m.setStatI32(s, statId, value); (Respond(res, b => Flag(b)), s')
    case SetFloatStat(_, statId, value) => var (res, s') := m.setStatF32(s, statId, value); (Respond(res, b => Flag(b)), s')
    case ResetStats(_, achievementsToo) =>
      var (res, s') := m.resetAllStats(s, achievementsToo); (Respond(res, b => Flag(b)), s')
  }

  /** A command for this worker's app is passed to the manager with its
      arguments, and the manager's error, if any, comes back unchanged
      without stopping the loop. A set-achievement that succeeds is
      answered `true`; the other setters answer with the manager's value. */
  lemma ServedCommands<S>(m: Manager<S>, s: S, appId: u32, cmd: SteamCommand)
    requires TargetApp(cmd) == Some(appId)
    ensures var d := Dispatch(m, Connected(s), appId, cmd);
      && d.proceed
      && (d.reply, d.conn.manager) == ManagerCall(m, s, cmd)
    ensures cmd.SetAchievement? ==>
      var res := m.setAchievement(s, cmd.achievementId, cmd.unlocked).0;
      Dispatch(m, Connected(s), appId, cmd).reply == (if res.Ok? then Success(Flag(true)) else Error(res.error))
    ensures cmd.SetIntStat? ==>
      var res := m.setStatI32(s, cmd.statId, cmd.intValue).0;
      Dispatch(m, Connected(s), appId, cmd).reply == (if res.Ok? then Success(Flag(res.value)) else Error(res.error))
  {
  }

  // ---------------------------------------------------------------------
  // The loop

  /** How the worker ends: its exit code, its reply pipe, the connection,
      and the bytes left unread. */
  datatype WorkerEnd<S> = WorkerEnd(code: int, out: Pipe, conn: Connection<S>, unread: bytes)

  /** `app`: reads commands until the stream fails or a Shutdown is
      served, writing one reply per command. A reply that cannot be written
      is dropped. */
  function Run<S>(cc: Codec<SteamCommand>, rc: Codec<Reply>, m: Manager<S>, appId: u32,
                  conn: Connection<S>, input: bytes, out: Pipe): WorkerEnd<S>
    decreases |input|
  {
    match FromRecver(cc, input)
    case Err(_) => WorkerEnd(0, out, conn, input)
    case Ok((cmd, rest)) =>
      var d := Dispatch(m, conn, appId, cmd);
      var out' := Write(out, SamSerialize(rc, d.reply)).1;
      if d.proceed then Run(cc, rc, m, appId, d.conn, rest, out')
      else WorkerEnd(0, out', d.conn, rest)
  }

  /** The worker always exits with 0; what it writes extends its output;
      and a reply pipe that cannot be written stays as it was. */
  lemma {:induction false} RunExitsZero<S>(cc: Codec<SteamCommand>, rc: Codec<Reply>, m: Manager<S>, appId: u32,
                                          conn: Connection<S>, input: bytes, out: Pipe)
    ensures var end := Run(cc, rc, m, appId, conn, input, out);
      && end.code == 0
      && end.out.writable == out.writable
      && end.out.incoming == out.incoming
      && |out.sent| <= |end.out.sent| && end.out.sent[..|out.sent|] == out.sent
      && (!out.writable ==> end.out == out)
    decreases |input|
  {
    match FromRecver(cc, input)
    case Err(_) =>
    case Ok((cmd, rest)) =>
      var d := Dispatch(m, conn, appId, cmd);
      var out' := Write(out, SamSerialize(rc, d.reply)).1;
      if d.proceed {
        RunExitsZero(cc, rc, m, appId, d.conn, rest, out');
        var end := Run(cc, rc, m, appId, d.conn, rest, out');
        assert end.out.sent[..|out.sent|] == end.out.sent[..|out'.sent|][..|out.sent|];
      }
  }

  /** The replies to a list of commands, up to and including a Shutdown
      that stops the worker; `stopped` tells whether that happened. */
  datatype Transcript<S> = Transcript(replies: seq<Reply>, conn: Connection<S>, stopped: bool)

  function Answer<S>(m: Manager<S>, conn: Connection<S>, appId: u32, cmds: seq<SteamCommand>): (t: Transcript<S>)
    ensures |t.replies| <= |cmds|
    ensures !t.stopped ==> |t.replies| == |cmds|
    ensures t.stopped ==> |t.replies| >= 1 && cmds[|t.replies| - 1].Shutdown?
    decreases |cmds|
  {
    if |cmds| == 0 then Transcript([], conn, false)
    else
      var d := Dispatch(m, conn, appId, cmds[0]);
      if !d.proceed then Transcript([d.reply], d.conn, true)
      else
        var t := Answer(m, d.conn, appId, cmds[1..]);
        Transcript([d.reply] + t.replies, t.conn, t.stopped)
  }

  /** One turn of the loop on a framed command. */
  lemma RunStep<S>(cc: Codec<SteamCommand>, rc: Codec<Reply>, m: Manager<S>, appId: u32,
                   conn: Connection<S>, cmd: SteamCommand, rest: bytes, out: Pipe)
    requires RoundTrips(cc)
    requires cc.encode(cmd).Some? && |cc.encode(cmd).value| < LittleEndian.Pow256(UsizeBytes)
    requires out.writable
    ensures var d := Dispatch(m, conn, appId, cmd);
      var out' := out.(sent := out.sent + SamSerialize(rc, d.reply));
      Run(cc, rc, m, appId, conn, SamSerialize(cc, cmd) + rest, out) ==
        if d.proceed then Run(cc, rc, m, appId, d.conn, rest, out') else WorkerEnd(0, out', d.conn, rest)
  {
    FromRecverSamSerialize(cc, cmd, rest);
  }

  /** Two writes in a row send the concatenation. */
  lemma SentTwice(p: Pipe, x: bytes, y: bytes)
    ensures var q := p.(sent := p.sent + x);
      q.(sent := q.sent + y) == p.(sent := p.sent + (x + y))
  {
    assert p.sent + x + y == p.sent + (x + y);
  }

  /** The frames of a nonempty list are the first frame and the rest. */
  lemma SerializeCons<T>(c: Codec<T>, x: T, xs: seq<T>)
    ensures SerializeAll(c, [x] + xs) == SamSerialize(c, x) + SerializeAll(c, xs)
  {
    assert ([x] + xs)[1..] == xs;
  }

  /** The worker answers framed commands one by one: it writes exactly the
      framed replies of the transcript, in order, and leaves unread exactly
      the commands after a stopping Shutdown. */
  lemma {:induction false} RunAnswersEachCommand<S>(cc: Codec<SteamCommand>, rc: Codec<Reply>, m: Manager<S>, appId: u32,
                                                    conn: Connection<S>, cmds: seq<SteamCommand>, tail: bytes, out: Pipe)
    requires RoundTrips(cc) && Frameable(cc, cmds)
    requires FromRecver(cc, tail).Err? && out.writable
    ensures var end := Run(cc, rc, m, appId, conn, SerializeAll(cc, cmds) + tail, out);
      var t := Answer(m, conn, appId, cmds);
      && end.out == out.(sent := out.sent + SerializeAll(rc, t.replies))
      && end.conn == t.conn
      && end.unread == SerializeAll(cc, cmds[|t.replies|..]) + tail
    decreases |cmds|, 1
  {
    if |cmds| == 0 {
      assert SerializeAll(cc, cmds) + tail == tail;
    } else if Dispatch(m, conn, appId, cmds[0]).proceed {
      RunAnswersFirst(cc, rc, m, appId, conn, cmds, tail, out);
    } else {
      RunStopsAtFirst(cc, rc, m, appId, conn, cmds, tail, out);
    }
  }

  /** The first command is served and the loop goes on with the rest. */
  lemma {:induction false} RunAnswersFirst<S>(cc: Codec<SteamCommand>, rc: Codec<Reply>, m: Manager<S>, appId: u32,
                                              conn: Connection<S>, cmds: seq<SteamCommand>, tail: bytes, out: Pipe)
    requires RoundTrips(cc) && Frameable(cc, cmds)
    requires FromRecver(cc, tail).Err? && out.writable
    requires |cmds| > 0 && Dispatch(m, conn, appId, cmds[0]).proceed
    ensures var end := Run(cc, rc, m, appId, conn, SerializeAll(cc, cmds) + tail, out);
      var t := Answer(m, conn, appId, cmds);
      && end.out == out.(sent := out.sent + SerializeAll(rc, t.replies))
      && end.conn == t.conn
      && end.unread == SerializeAll(cc, cmds[|t.replies|..]) + tail
    decreases |cmds|, 0
  {
    var rest := SerializeAll(cc, cmds[1..]) + tail;
    assert SerializeAll(cc, cmds) + tail == SamSerialize(cc, cmds[0]) + rest;
    RunStep(cc, rc, m, appId, conn, cmds[0], rest, out);
    var d := Dispatch(m, conn, appId, cmds[0]);
    var out' := out.(sent := out.sent + SamSerialize(rc, d.reply));
    FrameableTail(cc, cmds);
    RunAnswersEachCommand(cc, rc, m, appId, d.conn, cmds[1..], tail, out');
    var t' := Answer(m, d.conn, appId, cmds[1..]);
    JoinReplies(rc, out, d.reply, t'.replies);
    DropAfterFirst(cmds, |t'.replies|);
  }

  /** The first command is a served Shutdown: one reply, and the rest of
      the stream stays unread. */
  lemma RunStopsAtFirst<S>(cc: Codec<SteamCommand>, rc: Codec<Reply>, m: Manager<S>, appId: u32,
                           conn: Connection<S>, cmds: seq<SteamCommand>, tail: bytes, out: Pipe)
    requires RoundTrips(cc) && Frameable(cc, cmds)
    requires out.writable
    requires |cmds| > 0 && !Dispatch(m, conn, appId, cmds[0]).proceed
    ensures var end := Run(cc, rc, m, appId, conn, SerializeAll(cc, cmds) + tail, out);
      var t := Answer(m, conn, appId, cmds);
      && end.out == out.(sent := out.sent + SerializeAll(rc, t.replies))
      && end.conn == t.conn
      && end.unread == SerializeAll(cc, cmds[|t.replies|..]) + tail
  {
    var rest := SerializeAll(cc, cmds[1..]) + tail;
    assert SerializeAll(cc, cmds) + tail == SamSerialize(cc, cmds[0]) + rest;
    RunStep(cc, rc, m, appId, conn, cmds[0], rest, out);
    var d := Dispatch(m, conn, appId, cmds[0]);
    SerializeCons(rc, d.reply, []);
  }

  /** Dropping the first of a list keeps the rest framable. */
  lemma FrameableTail<T>(c: Codec<T>, xs: seq<T>)
    requires Frameable(c, xs) && |xs| > 0
    ensures Frameable(c, xs[1..])
  {
    assert forall i :: 0 <= i < |xs| - 1 ==> xs[1..][i] == xs[i + 1];
  }

  /** Writing one reply and then the frames of the others writes the frames
      of all of them. */
  lemma JoinReplies(rc: Codec<Reply>, out: Pipe, r: Reply, rs: seq<Reply>)
    ensures var out' := out.(sent := out.sent + SamSerialize(rc, r));
      out'.(sent := out'.sent + SerializeAll(rc, rs)) == out.(sent := out.sent + SerializeAll(rc, [r] + rs))
  {
    SerializeCons(rc, r, rs);
    SentTwice(out, SamSerialize(rc, r), SerializeAll(rc, rs));
  }

  lemma DropAfterFirst<T>(xs: seq<T>, k: nat)
    requires k < |xs|
    ensures xs[1..][k..] == xs[k + 1..]
  {
  }

  /** With a failed connection every command is answered with the
      connection error and nothing stops the worker. */
  lemma {:induction false} FailedConnectionAnswers<S>(m: Manager<S>, appId: u32, cmds: seq<SteamCommand>)
    ensures var t := Answer(m, Failed, appId, cmds);
      && !t.stopped && t.conn == Failed
      && forall i :: 0 <= i < |t.replies| ==> t.replies[i] == Error(SteamConnectionFailed)
    decreases |cmds|
  {
    if |cmds| > 0 {
      FailedConnectionAnswers(m, appId, cmds[1..]);
    }
  }

  /** A connected worker stops at the first Shutdown and answers nothing
      after it. */
  lemma {:induction false} StopsAtFirstShutdown<S>(m: Manager<S>, s: S, appId: u32, cmds: seq<SteamCommand>, k: nat)
    requires k < |cmds| && cmds[k].Shutdown?
    requires forall i :: 0 <= i < k ==> !cmds[i].Shutdown?
    ensures var t := Answer(m, Connected(s), appId, cmds);
      t.stopped && |t.replies| == k + 1 && t.replies[k] == Success(Flag(true))
    decreases k
  {
    if k > 0 {
      var d := Dispatch(m, Connected(s), appId, cmds[0]);
      assert d.conn.Connected?;
      StopsAtFirstShutdown(m, d.conn.manager, appId, cmds[1..], k - 1);
    }
  }
}
