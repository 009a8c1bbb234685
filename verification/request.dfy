/** The interface side of the protocol: a request is turned into its
    command, written to the orchestrator, and answered by one framed reply
    that is decoded into the request's response type. The shared handle to
    the orchestrator is a parameter. */
module Request {
  import opened Common
  import LittleEndian
  import opened IpcTypes
  import Float

  /** The requests the interface makes, one per request struct. */
  datatype Request =
    | GetOwnedAppListRequest
    | ShutdownRequest
    | LaunchAppRequest(appId: u32)
    | StopAppRequest(appId: u32)
    | StopAppsRequest
    | GetAchievementsRequest(appId: u32)
    | GetStatsRequest(appId: u32)
    | SetAchievementRequest(appId: u32, achievementId: string, unlocked: bool)
    | SetIntStatRequest(appId: u32, statId: string, value: i32)
    | SetFloatStatRequest(appId: u32, statId: string, floatValue: Float.F32)
    | ResetStatsRequest(appId: u32, achievementsToo: bool)

  /** The `Into<SteamCommand>` conversions. */
  function IntoCommand(r: Request): SteamCommand {
    match r
    case GetOwnedAppListRequest => GetOwnedAppList
    case ShutdownRequest => Shutdown
    case LaunchAppRequest(id) => LaunchApp(id)
    case StopAppRequest(id) => StopApp(id)
    case StopAppsRequest => StopApps
    case GetAchievementsRequest(id) => GetAchievements(id)
    case GetStatsRequest(id) => GetStats(id)
    case SetAchievementRequest(id, achievementId, unlocked) => SetAchievement(id, unlocked, achievementId)
    case SetIntStatRequest(id, statId, value) => SetIntStat(id, statId, value)
    case SetFloatStatRequest(id, statId, value) => SetFloatStat(id, statId, value)
    case ResetStatsRequest(id, achievementsToo) => ResetStats(id, achievementsToo)
  }

  /** The request a command comes from; Status has none. */
  function FromCommand(c: SteamCommand): Option<Request> {
    match c
    case GetOwnedAppList => Some(GetOwnedAppListRequest)
    case Shutdown => Some(ShutdownRequest)
    case LaunchApp(id) => Some(LaunchAppRequest(id))
    case StopApp(id) => Some(StopAppRequest(id))
    case StopApps => Some(StopAppsRequest)
    case Status => None
    case GetAchievements(id) => Some(GetAchievementsRequest(id))
    case GetStats(id) => Some(GetStatsRequest(id))
    case SetAchievement(id, unlocked, achievementId) => Some(SetAchievementRequest(id, achievementId, unlocked))
    case SetIntStat(id, statId, value) => Some(SetIntStatRequest(id, statId, value))
    case SetFloatStat(id, statId, value) => Some(SetFloatStatRequest(id, statId, value))
    case ResetStats(id, achievementsToo) => Some(ResetStatsRequest(id, achievementsToo))
  }

  /** Each request becomes the command of the same name with every field
      kept: converting back gives the request, and every command but Status
      comes from exactly one request. */
  lemma IntoCommandInverse(r: Request, c: SteamCommand)
    ensures FromCommand(IntoCommand(r)) == Some(r)
    ensures FromCommand(c).None? <==> c.Status?
    ensures FromCommand(c).Some? ==> IntoCommand(FromCommand(c).value) == c
    ensures IntoCommand(r) == c ==> FromCommand(c) == Some(r)
  {
  }

  /** The field order of the setters: the achievement's unlocked flag comes
      before its id, and a stat's id before its value. */
  lemma SetterFieldOrder(id: u32, name: string, unlocked: bool, value: i32, f: Float.F32)
    ensures IntoCommand(SetAchievementRequest(id, name, unlocked)) == SetAchievement(id, unlocked, name)
    ensures IntoCommand(SetIntStatRequest(id, name, value)) == SetIntStat(id, name, value)
    ensures IntoCommand(SetFloatStatRequest(id, name, f)) == SetFloatStat(id, name, f)
  {
  }

  /** The shared handle to the orchestrator: its lock may be poisoned, or
      there may be no orchestrator process. */
  datatype Handle = Poisoned | NoProcess | Process(pipe: Pipe)

  /** `Request::request`: every transport failure, and a reply that does
      not decode as the expected response, is `SocketCommunicationFailed`;
      a decoded reply becomes a `Result`. Gives the handle after the call. */
  function Send<T>(cc: Codec<SteamCommand>, rc: Codec<SteamResponse<T>>, h: Handle, req: Request): (r: (Result<T, SamError>, Handle))
    ensures !h.Process? ==> r == (Err(SocketCommunicationFailed), h)
    ensures h.Process? && !h.pipe.writable ==> r == (Err(SocketCommunicationFailed), h)
    ensures h.Process? && h.pipe.writable ==>
      r.1.Process? && r.1.pipe.sent == h.pipe.sent + SamSerialize(cc, IntoCommand(req))
  {
    match h
    case Poisoned => (Err(SocketCommunicationFailed), h)
    case NoProcess => (Err(SocketCommunicationFailed), h)
    case Process(p) =>
      var (written, p1) := Write(p, SamSerialize(cc, IntoCommand(req)));
      if !written then (Err(SocketCommunicationFailed), Process(p1))
      else
        match ReadFrame(p1.incoming)
        case Err(_) => (Err(SocketCommunicationFailed), Process(p1.(incoming := [])))
        case Ok((body, rest)) =>
          var p2 := p1.(incoming := rest);
          match rc.decode(body)
          case None => (Err(SocketCommunicationFailed), Process(p2))
          case Some(response) => (IntoResult(response), Process(p2))
  }

  /** The client reads a reply with the same framing as `from_recver`, but
      maps a body that does not decode to `SocketCommunicationFailed`
      where `from_recver` reports `SerializationFailed`. */
  lemma SendReadsLikeFromRecver<T>(cc: Codec<SteamCommand>, rc: Codec<SteamResponse<T>>, p: Pipe, req: Request)
    requires p.writable
    ensures Send(cc, rc, Process(p), req).0 ==
      match FromRecver(rc, p.incoming)
      case Ok((response, _)) => IntoResult(response)
      case Err(_) => Err(SocketCommunicationFailed)
    ensures FromRecver(rc, p.incoming) == Err(SerializationFailed) ==>
      Send(cc, rc, Process(p), req).0 == Err(SocketCommunicationFailed)
    ensures FromRecver(rc, p.incoming).Ok? ==>
      Send(cc, rc, Process(p), req).1.pipe.incoming == FromRecver(rc, p.incoming).value.1
  {
  }

  /** End to end: when the orchestrator's framed reply waits in the pipe,
      the request returns that reply as a `Result` and leaves what follows
      it for the next request. */
  lemma SendReceivesReply<T(!new)>(cc: Codec<SteamCommand>, rc: Codec<SteamResponse<T>>, p: Pipe, req: Request,
                                   response: SteamResponse<T>, more: bytes)
    requires RoundTrips(rc) && p.writable
    requires rc.encode(response).Some? && |rc.encode(response).value| < LittleEndian.Pow256(UsizeBytes)
    requires p.incoming == SamSerialize(rc, response) + more
    ensures Send(cc, rc, Process(p), req) ==
      (IntoResult(response), Process(p.(sent := p.sent + SamSerialize(cc, IntoCommand(req)), incoming := more)))
  {
    FromRecverSamSerialize(rc, response, more);
    ReadFrameOfFrame(rc.encode(response).value, more);
  }
}
