/** The read-only task catalog and the two draws made from it: filtering
    the pool by difficulty, and `Math.floor(Math.random() * n)`. */
module Catalog {
  import opened Options

  /** One entry of tasks.json: `{type, text, difficulty}`. The fields are
      the strings the JSON file holds. */
  datatype Task = Task(kind: string, text: string, difficulty: string)

  /** The difficulty value that disables the filter. */
  const AnyDifficulty: string := "any"

  /** `req.query.difficulty || "any"`: a missing or empty query parameter
      means no filter. */
  function RequestedDifficulty(query: Option<string>): (d: string)
    ensures d != ""
    ensures query.Some? && query.value != "" ==> d == query.value
    ensures query.None? || query.value == "" ==> d == AnyDifficulty
  {
    match query
    case Some(q) => if q == "" then AnyDifficulty else q
    case None => AnyDifficulty
  }

  /** `tasks.filter(t => t.difficulty === d)`: the tasks of difficulty `d`,
      in catalog order. */
  function WithDifficulty(tasks: seq<Task>, d: string): (r: seq<Task>)
    ensures |r| <= |tasks|
    ensures forall t :: t in r <==> t in tasks && t.difficulty == d
  {
    if tasks == [] then []
    else (if tasks[0].difficulty == d then [tasks[0]] else []) + WithDifficulty(tasks[1..], d)
  }

  /** `d === "any" ? tasks : tasks.filter(...)`: the pool a random task is
      drawn from. There is no fallback to the whole catalog when the
      filter leaves nothing. */
  function Pool(tasks: seq<Task>, d: string): (r: seq<Task>)
    ensures d == AnyDifficulty ==> r == tasks
    ensures d != AnyDifficulty ==> forall t :: t in r <==> t in tasks && t.difficulty == d
  {
    if d == AnyDifficulty then tasks else WithDifficulty(tasks, d)
  }

  /** `Math.floor(r * n)` for a draw `r` of Math.random(), which lies in
      [0, 1): an index into a non-empty list of length `n`, and 0 when the
      list is empty. */
  function PickIndex(r: real, n: nat): (k: nat)
    requires 0.0 <= r < 1.0
    ensures n > 0 ==> k < n
    ensures n == 0 ==> k == 0
  {
    var m := n as real;
    var x := r * m;
    assert (1.0 - r) * m >= 0.0;
    assert n > 0 ==> (1.0 - r) * m > 0.0;
    x.Floor
  }
}
