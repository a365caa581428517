/**
  The Ranger role import of thread.py and new.py: the roles are found in the
  exported JSON, each is copied without its `id` and posted, and the answers
  are classified. The server is an oracle: `post(i)` is the response to the
  post of the `i`-th role, counting from 1 as both scripts do. thread.py
  posts from a thread pool; its tally does not depend on completion order
  and is modelled sequentially.
*/
module RoleImport {

  import opened Wrappers
  import opened Text
  import opened Json

  /** The answer to one post: a status code and body, or a request error. */
  datatype Response = Answered(code: int, text: string) | RequestFailed(reason: string)

  /** `data[key]` once `key in data` held: only an object can be indexed by a string. */
  function Index(data: Json, key: string): Result<Json, Raised> {
    if data.Obj? then Success(GetOr(data.members, key, Null)) else Failure(TypeError)
  }

  /** `get_roles_from_file`: the `vList` member, else the `roles` member,
      else the document itself when it is a list. */
  function RolesOf(data: Json): (r: Result<Json, Raised>)
    ensures data.Obj? && "vList" in Keys(data.members) ==> r == Success(GetOr(data.members, "vList", Null))
    ensures data.Obj? && "vList" !in Keys(data.members) && "roles" in Keys(data.members) ==>
              r == Success(GetOr(data.members, "roles", Null))
    ensures data.Obj? && "vList" !in Keys(data.members) && "roles" !in Keys(data.members) ==> r == Failure(ValueError)
    ensures data.Arr? && Str("vList") !in data.items && Str("roles") !in data.items ==> r == Success(data)
    ensures data.Arr? && (Str("vList") in data.items || Str("roles") in data.items) ==> r == Failure(TypeError)
    ensures data.Null? || data.Bool? || data.Num? ==> r == Failure(TypeError)
  {
    match In("vList", data)
    case Failure(e) => Failure(e)
    case Success(true) => Index(data, "vList")
    case Success(false) =>
      match In("roles", data)
      case Failure(e) => Failure(e)
      case Success(true) => Index(data, "roles")
      case Success(false) => if data.Arr? then Success(data) else Failure(ValueError)
  }

  /** `prepare_role_data` (thread.py) and the copy-and-`del` of new.py: the
      role without its `id`. A list can be copied but not popped by key, so
      it raises `TypeError`; any other non-object has no `copy` method. */
  function PrepareRole(role: Json): (r: Result<Json, Raised>)
    ensures r.Success? <==> role.Obj?
    ensures r.Success? ==> r.value.Obj?
    ensures role.Arr? ==> r == Failure(TypeError)
    ensures !role.Obj? && !role.Arr? ==> r == Failure(AttributeError)
  {
    if role.Obj? then Success(Obj(Remove(role.members, "id")))
    else if role.Arr? then Failure(TypeError)
    else Failure(AttributeError)
  }

  /** For a role whose keys are distinct (as `json.load` makes them), every
      member but `id` is posted unchanged. */
  lemma PrepareRoleKeeps(role: Json, k: string)
    requires role.Obj? && UniqueKeys(role.members)
    ensures PrepareRole(role).Success?
    ensures Get(PrepareRole(role).value.members, k) == if k == "id" then None else Get(role.members, k)
  {
    GetRemove(role.members, "id", k);
  }

  /** The result record of `import_single_role`; `progress` says whether the
      progress line is printed. */
  datatype RoleResult = RoleResult(index: nat, name: Json, success: bool, status: Option<int>,
                                   message: Option<string>, progress: bool)

  function DefaultName(index: nat): Json {
    Str("unnamed-role-" + Decimal(index))
  }

  /** `import_single_role` for the `index`-th of `total` roles. */
  function ImportSingle(body: Json, index: nat, total: nat, response: Response): (r: RoleResult)
    ensures r.index == index
    ensures r.success <==> response.Answered? && response.code == 200
    ensures r.message.None? <==> r.success
    ensures response.RequestFailed? ==> r.status.None?
    ensures response.Answered? ==> r.status == Some(response.code)
    ensures r.progress <==> response.Answered? && (index % 100 == 0 || index == total)
  {
    var name := if body.Obj? then GetOr(body.members, "name", DefaultName(index)) else DefaultName(index);
    match response
    case Answered(code, text) =>
      RoleResult(index, name, code == 200, Some(code), if code != 200 then Some(text) else None,
                 index % 100 == 0 || index == total)
    case RequestFailed(reason) =>
      RoleResult(index, name, false, None, Some(reason), false)
  }

  /** How many of the posts `1..n` are answered with 200. */
  function Imported(post: nat -> Response, n: nat): (c: nat)
    ensures c <= n
  {
    if n == 0 then 0 else Imported(post, n - 1) + (if post(n).Answered? && post(n).code == 200 then 1 else 0)
  }

  /** The roles the run iterates over, once found and iterable. */
  function RoleList(data: Json): seq<Json> {
    match RolesOf(data)
    case Failure(_) => []
    case Success(roles) => match Elements(roles) case Some(es) => es case None => []
  }

  /** What an import run does: it cannot read the roles, finds none, or posts
      the prepared roles in order until one cannot be prepared. The counts of
      a stopped run belong to the model only: thread.py prints its tally only
      when every role was submitted, and new.py prints no tally. */
  datatype Run =
    | Unreadable(error: Raised)
    | NoRoles
    | Ran(sent: seq<Json>, results: seq<RoleResult>, stopped: Option<Raised>, successes: nat, failures: nat)

  /** `sent` are the first roles without their `id`, and `results` the
      answers to posting them, numbered from 1. */
  predicate Posted(es: seq<Json>, post: nat -> Response, sent: seq<Json>, results: seq<RoleResult>) {
    && |sent| == |results| <= |es|
    && forall t :: 0 <= t < |sent| ==>
         PrepareRole(es[t]) == Success(sent[t]) && results[t] == ImportSingle(sent[t], t + 1, |es|, post(t + 1))
  }

  lemma PostedSnoc(es: seq<Json>, post: nat -> Response, sent: seq<Json>, results: seq<RoleResult>, x: Json)
    requires Posted(es, post, sent, results) && |sent| < |es| && PrepareRole(es[|sent|]) == Success(x)
    ensures Posted(es, post, sent + [x], results + [ImportSingle(x, |sent| + 1, |es|, post(|sent| + 1))])
  {
    var sent1, results1 := sent + [x], results + [ImportSingle(x, |sent| + 1, |es|, post(|sent| + 1))];
    forall t | 0 <= t < |sent1|
      ensures PrepareRole(es[t]) == Success(sent1[t])
      ensures results1[t] == ImportSingle(sent1[t], t + 1, |es|, post(t + 1))
    {
      if t < |sent| {
        assert sent1[t] == sent[t] && results1[t] == results[t];
      }
    }
  }

  /** The posting loop over the roles found: the `i`-th posted body is the
      `i`-th role without its `id`, the run stops at the first role that is
      not an object, and the counts add up to the roles posted. */
  method PostRoles(es: seq<Json>, post: nat -> Response) returns (run: Run)
    ensures run.Ran?
    ensures |run.sent| == |run.results| <= |es|
    ensures forall i :: 0 <= i < |run.sent| ==> PrepareRole(es[i]) == Success(run.sent[i])
    ensures forall i :: 0 <= i < |run.results| ==> run.results[i] == ImportSingle(run.sent[i], i + 1, |es|, post(i + 1))
    ensures run.stopped.None? <==> |run.sent| == |es|
    ensures run.stopped.Some? ==> !es[|run.sent|].Obj? && PrepareRole(es[|run.sent|]) == Failure(run.stopped.value)
    ensures run.successes == Imported(post, |run.results|)
    ensures run.successes + run.failures == |run.sent|
  {
    var sent: seq<Json> := [];
    var results: seq<RoleResult> := [];
    var successes, failures := 0, 0;
    var i := 0;
    while i < |es| && PrepareRole(es[i]).Success?
      invariant 0 <= i <= |es|
      invariant |sent| == i && Posted(es, post, sent, results)
      invariant successes == Imported(post, i)
      invariant successes + failures == i
    {
      var prepared := PrepareRole(es[i]).value;
      var result := ImportSingle(prepared, i + 1, |es|, post(i + 1));
      PostedSnoc(es, post, sent, results, prepared);
      sent := sent + [prepared];
      results := results + [result];
      if result.success {
        successes := successes + 1;
      } else {
        failures := failures + 1;
      }
      i := i + 1;
    }
    // The role at `i`, if any, cannot be prepared: the loop raises there.
    var stopped := if i < |es| then Some(PrepareRole(es[i]).error) else None;
    return Ran(sent, results, stopped, successes, failures);
  }

  /** `import_roles` of thread.py and of new.py: nothing is posted unless
      roles are found and the list is non-empty; then every role is posted in
      order as `PostRoles` states. */
  method ImportRoles(data: Json, post: nat -> Response) returns (run: Run)
    ensures RolesOf(data).Failure? ==> run == Unreadable(RolesOf(data).error)
    ensures RolesOf(data).Success? && Falsy(RolesOf(data).value) ==> run == NoRoles
    ensures run.Ran? ==> RolesOf(data).Success? && Elements(RolesOf(data).value).Some?
    ensures run.Ran? ==> |run.sent| == |run.results| <= |RoleList(data)|
    ensures run.Ran? ==> forall i :: 0 <= i < |run.sent| ==> PrepareRole(RoleList(data)[i]) == Success(run.sent[i])
    ensures run.Ran? ==> forall i :: 0 <= i < |run.results| ==>
      run.results[i] == ImportSingle(run.sent[i], i + 1, |RoleList(data)|, post(i + 1))
    ensures run.Ran? ==> (run.stopped.None? <==> |run.sent| == |RoleList(data)|)
    ensures run.Ran? ==> run.successes == Imported(post, |run.results|)
    ensures run.Ran? ==> run.successes + run.failures == |run.sent|
  {
    var found := RolesOf(data);
    if found.Failure? {
      return Unreadable(found.error);
    }
    var roles := found.value;
    if Falsy(roles) {
      return NoRoles;
    }
    if Elements(roles).None? {
      // `len` of a number or boolean.
      return Unreadable(TypeError);
    }
    run := PostRoles(Elements(roles).value, post);
  }
}
