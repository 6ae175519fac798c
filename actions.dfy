/**
 * The action vocabulary shared by the governance components: the risk scale,
 * the action types, the JSON-shaped payload tree and the proposed action.
 * (The module defining them in the repository, `actions/models.py`, is not part
 * of this model; only the members the core uses are given here.)
 */
module Actions {
  import opened Wrappers

  /** The ordered risk scale low < medium < high < critical. */
  datatype RiskLevel = Low | Medium | High | Critical

  function RiskValue(r: RiskLevel): string {
    match r
    case Low => "low"
    case Medium => "medium"
    case High => "high"
    case Critical => "critical"
  }

  datatype ActionType = FileWrite | FileCreate | FileDelete | ShellCommand | DbExecute

  function ActionTypeValue(a: ActionType): string {
    match a
    case FileWrite => "file_write"
    case FileCreate => "file_create"
    case FileDelete => "file_delete"
    case ShellCommand => "shell_command"
    case DbExecute => "db_execute"
  }

  /**
   * A decoded JSON value. Objects keep their entries in insertion order, as
   * Python dicts do. A number keeps its literal text, so values that differ
   * in a number, a boolean or null are different values.
   */
  datatype Json =
    | JString(s: string)
    | JObject(entries: seq<(string, Json)>)
    | JArray(items: seq<Json>)
    | JScalar(scalar: Scalar)

  /** A JSON number (as written), boolean or null. */
  datatype Scalar = Number(text: string) | Bool(b: bool) | Null

  /** `d.get(key)` on a decoded object: the last entry with that key wins, as in `json.loads`. */
  function Get(entries: seq<(string, Json)>, key: string): (r: Option<Json>)
    ensures r.Some? <==> exists i | 0 <= i < |entries| :: entries[i].0 == key
    ensures r.Some? ==> exists i | 0 <= i < |entries| ::
      entries[i] == (key, r.value) && forall j | i < j < |entries| :: entries[j].0 != key
  {
    if entries == [] then None
    else if entries[|entries| - 1].0 == key then Some(entries[|entries| - 1].1)
    else
      var r := Get(entries[..|entries| - 1], key);
      assert forall i | 0 <= i < |entries| - 1 :: entries[..|entries| - 1][i] == entries[i];
      r
  }

  /** A proposed side-effecting operation. */
  datatype ActionRequest = ActionRequest(
    actionType: ActionType,
    description: string,
    target: string,
    payload: seq<(string, Json)>,
    context: Option<string>)
}
