/** The messages exchanged between the interface process, the orchestrator
    and the per-app workers, and their framing on a byte pipe: a length
    prefix of `size_of::<usize>()` bytes (8, little-endian) followed by the
    JSON text of the message. The JSON codec itself stays abstract: a pair
    of functions, assumed to round-trip wherever a property needs it. */
module IpcTypes {
  import opened Common
  import LittleEndian
  import opened Float

  /** Errors reported across process boundaries. */
  datatype SamError =
    | SerializationFailed
    | SteamConnectionFailed
    | AppListRetrievalFailed
    | SocketCommunicationFailed
    | AppMismatchError
    | UnknownError

  /** The `Display` text of each error. */
  function ErrorMessage(e: SamError): string {
    match e
    case SerializationFailed => "Sam error: Serialization failed"
    case SteamConnectionFailed => "Sam error: Steam connection failed"
    case AppListRetrievalFailed => "Sam error: App list retrieval failed"
    case UnknownError => "Sam error: Unknown error"
    case SocketCommunicationFailed => "Sam error: SocketCommunication failed"
    case AppMismatchError => "Sam error: App mismatch"
  }

  /** No two errors print the same, and every message has the common prefix. */
  lemma ErrorMessagesDistinct(a: SamError, b: SamError)
    ensures ErrorMessage(a) == ErrorMessage(b) <==> a == b
    ensures |ErrorMessage(a)| > 11 && ErrorMessage(a)[..11] == "Sam error: "
  {
  }

  /** Commands from the interface to the orchestrator, and from the
      orchestrator on to a worker. */
  datatype SteamCommand =
    | GetOwnedAppList
    | LaunchApp(appId: u32)
    | StopApp(appId: u32)
    | StopApps
    | Shutdown
    | Status
    | GetAchievements(appId: u32)
    | GetStats(appId: u32)
    | SetAchievement(appId: u32, unlocked: bool, achievementId: string)
    | SetIntStat(appId: u32, statId: string, intValue: i32)
    | SetFloatStat(appId: u32, statId: string, floatValue: F32)
    | ResetStats(appId: u32, achievementsToo: bool)

  /** The commands a worker serves for its own app. */
  predicate IsPerAppCommand(c: SteamCommand) {
    c.GetAchievements? || c.GetStats? || c.SetAchievement? ||
    c.SetIntStat? || c.SetFloatStat? || c.ResetStats?
  }

  /** The app a per-app command addresses. */
  function TargetApp(c: SteamCommand): (r: Option<u32>)
    ensures r.Some? <==> IsPerAppCommand(c)
  {
    match c
    case GetAchievements(id) => Some(id)
    case GetStats(id) => Some(id)
    case SetAchievement(id, _, _) => Some(id)
    case SetIntStat(id, _, _) => Some(id)
    case SetFloatStat(id, _, _) => Some(id)
    case ResetStats(id, _) => Some(id)
    case _ => None
  }

  /** A reply: a value of the expected type, or an error. */
  datatype SteamResponse<T> = Success(data: T) | Error(error: SamError)

  /** Conversion of a reply into a `Result`. */
  function IntoResult<T>(r: SteamResponse<T>): (res: Result<T, SamError>)
    ensures res.Ok? <==> r.Success?
    ensures res.Ok? ==> res.value == r.data
    ensures res.Err? ==> res.error == r.error
  {
    match r
    case Success(d) => Ok(d)
    case Error(e) => Err(e)
  }

  function FromResult<T>(res: Result<T, SamError>): SteamResponse<T> {
    match res
    case Ok(d) => Success(d)
    case Err(e) => Error(e)
  }

  /** Replies and results are in one-to-one correspondence. */
  lemma IntoResultBijective<T>(r: SteamResponse<T>, res: Result<T, SamError>)
    ensures FromResult(IntoResult(r)) == r
    ensures IntoResult(FromResult(res)) == res
  {
  }

  // ---------------------------------------------------------------------
  // Framing

  /** `size_of::<usize>()` on the 64-bit hosts the program targets. */
  const UsizeBytes: nat := 8

  /** The message codec (serde_json text as UTF-8 bytes). `encode` fails
      with `None` when serialization fails; `decode` stands for a lossy
      UTF-8 conversion followed by JSON parsing, and fails with `None` when
      the text is not a message of type `T`. */
  datatype Codec<!T> = Codec(encode: T -> Option<bytes>, decode: bytes -> Option<T>)

  /** What the framing properties assume of the codec: every encoded message
      decodes back to itself. */
  ghost predicate RoundTrips<T(!new)>(c: Codec<T>) {
    forall x :: c.encode(x).Some? ==> c.decode(c.encode(x).value) == Some(x)
  }

  /** The prefix of a frame: the payload length, 8 bytes little-endian. */
  function LengthPrefix(n: nat): (b: bytes)
    ensures |b| == UsizeBytes
    ensures n < LittleEndian.Pow256(UsizeBytes) ==> LittleEndian.FromLe(b) == n
  {
    LittleEndian.FromLeToLe(n, UsizeBytes);
    LittleEndian.ToLe(n, UsizeBytes)
  }

  /** A payload behind its length prefix. */
  function Frame(payload: bytes): (f: bytes)
    ensures |f| == UsizeBytes + |payload|
    ensures f[..UsizeBytes] == LengthPrefix(|payload|) && f[UsizeBytes..] == payload
  {
    LengthPrefix(|payload|) + payload
  }

  /** `sam_serialize`: the framed encoding, or no bytes at all when the
      message cannot be serialized. */
  function SamSerialize<T>(c: Codec<T>, x: T): (out: bytes)
    ensures |out| == 0 <==> c.encode(x).None?
    ensures c.encode(x).Some? ==>
      |out| == UsizeBytes + |c.encode(x).value| && out[UsizeBytes..] == c.encode(x).value
    ensures c.encode(x).Some? ==> out[..UsizeBytes] == LengthPrefix(|c.encode(x).value|)
    ensures c.encode(x).Some? && |c.encode(x).value| < LittleEndian.Pow256(UsizeBytes) ==>
      LittleEndian.FromLe(out[..UsizeBytes]) == |c.encode(x).value|
  {
    match c.encode(x)
    case None => []
    case Some(p) => Frame(p)
  }

  /** Reads one frame from the front of a stream: the 8-byte prefix, then
      exactly the announced number of bytes. A stream that ends early in
      either part fails with `SocketCommunicationFailed`. On success gives
      the payload and the bytes after it. */
  function ReadFrame(s: bytes): (r: Result<(bytes, bytes), SamError>)
    ensures r.Err? ==> r.error == SocketCommunicationFailed
    ensures r.Ok? <==>
      |s| >= UsizeBytes && |s| - UsizeBytes >= LittleEndian.FromLe(s[..UsizeBytes])
    ensures r.Ok? ==>
      var n := LittleEndian.FromLe(s[..UsizeBytes]);
      && |r.value.0| == n
      && s == s[..UsizeBytes] + r.value.0 + r.value.1
  {
    if |s| < UsizeBytes then Err(SocketCommunicationFailed)
    else
      var n := LittleEndian.FromLe(s[..UsizeBytes]);
      if |s| - UsizeBytes < n then Err(SocketCommunicationFailed)
      else
        assert s == s[..UsizeBytes] + s[UsizeBytes..UsizeBytes + n] + s[UsizeBytes + n..];
        Ok((s[UsizeBytes..UsizeBytes + n], s[UsizeBytes + n..]))
  }

  /** `from_recver`: one framed message from the front of a stream, and the
      rest of the stream for the next read. Framing failures are
      `SocketCommunicationFailed`; a payload the codec rejects is
      `SerializationFailed`. */
  function FromRecver<T>(c: Codec<T>, s: bytes): (r: Result<(T, bytes), SamError>)
    ensures r.Err? ==> r.error == SocketCommunicationFailed || r.error == SerializationFailed
    ensures ReadFrame(s).Err? ==> r == Err(SocketCommunicationFailed)
    ensures r == Err(SerializationFailed) <==>
      ReadFrame(s).Ok? && c.decode(ReadFrame(s).value.0).None?
    ensures r.Ok? <==> ReadFrame(s).Ok? && c.decode(ReadFrame(s).value.0).Some?
    ensures r.Ok? ==>
      && c.decode(ReadFrame(s).value.0) == Some(r.value.0)
      && r.value.1 == ReadFrame(s).value.1
      && |s| >= UsizeBytes
      && r.value.1 == s[UsizeBytes + LittleEndian.FromLe(s[..UsizeBytes])..]
  {
    match ReadFrame(s)
    case Err(e) => Err(e)
    case Ok((payload, rest)) =>
      match c.decode(payload)
      case None => Err(SerializationFailed)
      case Some(x) => Ok((x, rest))
  }

  /** A frame is read back as its payload, and the bytes behind it are left
      for the next read. */
  lemma ReadFrameOfFrame(payload: bytes, rest: bytes)
    requires |payload| < LittleEndian.Pow256(UsizeBytes)
    ensures ReadFrame(Frame(payload) + rest) == Ok((payload, rest))
  {
    var s := Frame(payload) + rest;
    assert s[..UsizeBytes] == LengthPrefix(|payload|);
    assert s[UsizeBytes..UsizeBytes + |payload|] == payload;
    assert s[UsizeBytes + |payload|..] == rest;
  }

  /** Round trip: a serialized message is read back as itself, whatever
      follows it in the stream, given a codec that round-trips. */
  lemma FromRecverSamSerialize<T(!new)>(c: Codec<T>, x: T, rest: bytes)
    requires RoundTrips(c)
    requires c.encode(x).Some? && |c.encode(x).value| < LittleEndian.Pow256(UsizeBytes)
    ensures FromRecver(c, SamSerialize(c, x) + rest) == Ok((x, rest))
  {
    ReadFrameOfFrame(c.encode(x).value, rest);
  }

  /** Messages the codec encodes, each short enough for its length prefix. */
  predicate Frameable<T>(c: Codec<T>, xs: seq<T>) {
    forall i :: 0 <= i < |xs| ==>
      c.encode(xs[i]).Some? && |c.encode(xs[i]).value| < LittleEndian.Pow256(UsizeBytes)
  }

  /** Several serialized messages in a row are read back one by one, in order. */
  lemma {:induction false} FromRecverSequence<T(!new)>(c: Codec<T>, xs: seq<T>, rest: bytes)
    requires RoundTrips(c) && Frameable(c, xs)
    ensures ReadAll(c, SerializeAll(c, xs) + rest, |xs|) == Ok((xs, rest))
    decreases |xs|
  {
    if |xs| > 0 {
      var tail := SerializeAll(c, xs[1..]) + rest;
      assert SerializeAll(c, xs) + rest == SamSerialize(c, xs[0]) + tail;
      FromRecverSamSerialize(c, xs[0], tail);
      FromRecverSequence(c, xs[1..], rest);
      assert [xs[0]] + xs[1..] == xs;
    } else {
      assert SerializeAll(c, xs) + rest == rest;
    }
  }

  /** The concatenated frames of several messages. */
  function SerializeAll<T>(c: Codec<T>, xs: seq<T>): bytes {
    if |xs| == 0 then [] else SamSerialize(c, xs[0]) + SerializeAll(c, xs[1..])
  }

  /** Reads `count` messages one after the other. */
  function ReadAll<T>(c: Codec<T>, s: bytes, count: nat): Result<(seq<T>, bytes), SamError> {
    if count == 0 then Ok(([], s))
    else
      match FromRecver(c, s)
      case Err(e) => Err(e)
      case Ok((x, rest)) =>
        match ReadAll(c, rest, count - 1)
        case Err(e) => Err(e)
        case Ok((xs, rest')) => Ok(([x] + xs, rest'))
  }

  // ---------------------------------------------------------------------
  // Pipes

  /** One end of a pair of pipes to another process: the bytes written to
      it so far, the bytes the other side has written that are still to be
      read, and whether writes succeed. */
  datatype Pipe = Pipe(sent: bytes, incoming: bytes, writable: bool)

  /** `write_all`: appends to the sent bytes, or fails and leaves the pipe
      as it was. */
  function Write(p: Pipe, data: bytes): (r: (bool, Pipe))
    ensures r.0 <==> p.writable
    ensures r.0 ==> r.1 == p.(sent := p.sent + data)
    ensures !r.0 ==> r.1 == p
  {
    if p.writable then (true, p.(sent := p.sent + data)) else (false, p)
  }
}
