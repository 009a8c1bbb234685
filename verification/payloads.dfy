/** The values carried by replies. Each reply is a `SteamResponse` of one
    payload type; the model gathers those types into one datatype so that a
    single codec stands for the JSON encoding of every reply. */
module Payloads {
  import opened IpcTypes
  import AppLister
  import StatDefinitions

  datatype Payload =
    | Unit
    | Flag(flag: bool)
    | Apps(apps: seq<AppLister.AppModel>)
    | Achievements(achievements: seq<StatDefinitions.AchievementInfo>)
    | Stats(stats: seq<StatDefinitions.StatInfo>)

  /** A reply as it travels between processes. */
  type Reply = SteamResponse<Payload>
}
