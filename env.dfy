/**
 * `getEnv`: the `ADMIN` environment variable, a comma-separated list of
 * administrator e-mail addresses, parsed into a list.
 */
module Env {
  import opened Wrappers
  import opened Text

  /** What the process environment holds under `ADMIN`. */
  datatype EnvValue = Missing | NonString | Str(s: string)

  const InvalidEnvMessage := "Invalid environment variables"

  /** The `ADMIN` entries: none for the empty string, otherwise the pieces between commas. */
  function AdminList(s: string): (r: seq<string>)
    ensures s == "" ==> r == []
    ensures s != "" ==> |r| == CountChar(s, ',') + 1
    ensures forall k :: 0 <= k < |r| ==> ',' !in r[k]
  {
    if s == "" then []
    else
      SplitCount(s, ',');
      SplitPiecesFree(s, ',');
      Split(s, ',')
  }

  /** `getEnv().ADMIN`: the parsed list, or the error thrown when `ADMIN` is missing or not a string. */
  function GetAdmin(v: EnvValue): (r: Result<seq<string>>)
    ensures r.Err? <==> !v.Str?
    ensures r.Err? ==> r.message == InvalidEnvMessage
    ensures r.Ok? ==> r.value == AdminList(v.s)
  {
    match v
    case Str(s) => Ok(AdminList(s))
    case _ => Err(InvalidEnvMessage)
  }

  /** For a non-empty `ADMIN`, joining the entries with commas gives it back. */
  lemma AdminListJoin(s: string)
    requires s != ""
    ensures Join(AdminList(s), ',') == s
  {
    JoinSplit(s, ',');
  }

  /** Any non-empty list of comma-free entries is read back from its comma-joined form. */
  lemma AdminListOfJoin(entries: seq<string>)
    requires |entries| >= 1 && Join(entries, ',') != ""
    requires forall k :: 0 <= k < |entries| ==> ',' !in entries[k]
    ensures AdminList(Join(entries, ',')) == entries
  {
    SplitJoin(entries, ',');
  }
}
