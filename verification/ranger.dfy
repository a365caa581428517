/**
  The Ranger policy rewrites: folding roles into groups (rolestogroups.py,
  new_roles.py), granting a group permissions on a policy
  (ranger_policyupdate.py) and pointing Hive URL policies at the data files
  instead of the schemas (schemas.py). Each is a pure function from the
  loaded JSON to the JSON written back, or to the exception the script dies
  with before writing anything.
*/
module Ranger {

  import opened Wrappers
  import opened Text
  import opened Json
  import opened SortedStrings

  // ---------------------------------------------------------------------------
  // Roles become groups.
  // ---------------------------------------------------------------------------

  /** The names a member lists, `[]` when the member is absent. */
  function Listed(ms: seq<Member>, k: string): Option<seq<string>> {
    Names(GetOr(ms, k, Arr([])))
  }

  /** One entry (a role export entry or a policy item): its groups become the
      sorted set of its groups and roles, and its roles become empty. */
  function MoveRoles(entry: Json): (r: Result<Json, Raised>)
    ensures r.Success? <==> entry.Obj? && Listed(entry.members, "roles").Some? && Listed(entry.members, "groups").Some?
    ensures r.Success? ==> r.value.Obj?
    ensures r.Success? ==>
      var gs := Listed(r.value.members, "groups");
      gs.Some? && StrictlySorted(gs.value) &&
      forall y :: y in gs.value <==> y in Listed(entry.members, "groups").value || y in Listed(entry.members, "roles").value
    ensures r.Success? ==> Get(r.value.members, "roles") == Some(Arr([]))
    ensures r.Success? ==> forall k :: k != "groups" && k != "roles" ==> Get(r.value.members, k) == Get(entry.members, k)
  {
    if !entry.Obj? then Failure(AttributeError)
    else
      var roles := Listed(entry.members, "roles");
      var groups := Listed(entry.members, "groups");
      if roles.None? || groups.None? then Failure(TypeError)
      else
        var merged := SortedSet(groups.value + roles.value);
        var ms1 := Set(entry.members, "groups", StrArr(merged));
        var ms2 := Set(ms1, "roles", Arr([]));
        MovedShape(entry.members, merged);
        Success(Obj(ms2))
  }

  lemma MovedShape(ms: seq<Member>, merged: seq<string>)
    ensures var out := Set(Set(ms, "groups", StrArr(merged)), "roles", Arr([]));
      Get(out, "groups") == Some(StrArr(merged)) &&
      Listed(out, "groups") == Some(merged) &&
      Get(out, "roles") == Some(Arr([])) &&
      forall k :: k != "groups" && k != "roles" ==> Get(out, k) == Get(ms, k)
  {
    var ms1 := Set(ms, "groups", StrArr(merged));
    var out := Set(ms1, "roles", Arr([]));
    forall k ensures Get(out, k) == if k == "roles" then Some(Arr([])) else Get(ms1, k) {
      GetSet(ms1, "roles", Arr([]), k);
    }
    forall k ensures Get(ms1, k) == if k == "groups" then Some(StrArr(merged)) else Get(ms, k) {
      GetSet(ms, "groups", StrArr(merged), k);
    }
    NamesOfStrArr(merged);
  }

  /** Moving roles twice is moving them once. */
  lemma MoveRolesIdempotent(entry: Json)
    requires MoveRoles(entry).Success?
    ensures MoveRoles(MoveRoles(entry).value) == MoveRoles(entry)
  {
    var out := MoveRoles(entry).value;
    var merged := SortedSet(Listed(entry.members, "groups").value + Listed(entry.members, "roles").value);
    MovedShape(entry.members, merged);
    assert Listed(out.members, "roles") == Some([]) by {
      assert Arr([]) == StrArr([]);
      NamesOfStrArr([]);
    }
    assert merged + [] == merged;
    SortedSetFixed(merged);
    SetSame(out.members, "groups", StrArr(merged));
    SetSame(out.members, "roles", Arr([]));
  }

  /** `f` applied to every value of a list, in order; the first failure aborts. */
  function MapEach<A, B>(f: A -> Result<B, Raised>, xs: seq<A>): (r: Result<seq<B>, Raised>)
    ensures r.Success? <==> forall i :: 0 <= i < |xs| ==> f(xs[i]).Success?
    ensures r.Success? ==> |r.value| == |xs| && forall i :: 0 <= i < |xs| ==> r.value[i] == f(xs[i]).value
    decreases |xs|
  {
    if |xs| == 0 then Success([])
    else match f(xs[0])
      case Failure(e) => Failure(e)
      case Success(first) =>
        match MapEach(f, xs[1..])
        case Failure(e) => Failure(e)
        case Success(rest) => Success([first] + rest)
  }

  /** Every entry of a list, in order; the first failing entry aborts. */
  function MoveAll(entries: seq<Json>): Result<seq<Json>, Raised> {
    MapEach(MoveRoles, entries)
  }

  /** rolestogroups.py: the export must be a list; each entry has its roles
      folded into its groups. */
  function RolesToGroups(data: Json): (r: Result<Json, Raised>)
    ensures !data.Arr? ==> r == Failure(ValueError)
    ensures r.Success? ==> r.value.Arr? && |r.value.items| == |data.items|
    ensures r.Success? ==> forall i :: 0 <= i < |data.items| ==> MoveRoles(data.items[i]) == Success(r.value.items[i])
    ensures data.Arr? && (forall i :: 0 <= i < |data.items| ==> MoveRoles(data.items[i]).Success?) ==> r.Success?
  {
    if !data.Arr? then Failure(ValueError)
    else match MoveAll(data.items)
      case Failure(e) => Failure(e)
      case Success(items) => Success(Arr(items))
  }

  lemma {:induction false} MoveAllIdempotent(entries: seq<Json>)
    requires MoveAll(entries).Success?
    ensures MoveAll(MoveAll(entries).value) == MoveAll(entries)
  {
    var out := MoveAll(entries).value;
    forall i | 0 <= i < |entries| ensures MoveRoles(out[i]) == Success(out[i]) {
      MoveRolesIdempotent(entries[i]);
    }
    var again := MoveAll(out).value;
    assert again == out;
  }

  /** Running the script on its own output changes nothing. */
  lemma RolesToGroupsIdempotent(data: Json)
    requires RolesToGroups(data).Success?
    ensures RolesToGroups(RolesToGroups(data).value) == RolesToGroups(data)
  {
    MoveAllIdempotent(data.items);
  }

  /** new_roles.py, one policy: every item of its `policyItems` has its roles
      folded into its groups; a policy without items is left as it is. */
  function MovePolicyRoles(policy: Json): (r: Result<Json, Raised>)
    ensures !policy.Obj? ==> r == Failure(AttributeError)
    ensures r.Success? ==> r.value.Obj?
    ensures r.Success? ==> forall k :: k != "policyItems" ==> Get(r.value.members, k) == Get(policy.members, k)
    ensures r.Success? && r.value != policy ==>
      var items := GetOr(policy.members, "policyItems", Arr([]));
      items.Arr? && MoveAll(items.items).Success? &&
      Get(r.value.members, "policyItems") == Some(Arr(MoveAll(items.items).value))
  {
    if !policy.Obj? then Failure(AttributeError)
    else
      var items := GetOr(policy.members, "policyItems", Arr([]));
      match Elements(items)
      case None => Failure(TypeError)
      case Some(es) =>
        if |es| == 0 then Success(policy)
        else match MoveAll(es)
          case Failure(e) => Failure(e)
          case Success(moved) =>
            // A non-empty string or object yields strings, which have no `.get`.
            assert MoveRoles(es[0]).Success?;
            assert items.Arr?;
            forall k ensures Get(Set(policy.members, "policyItems", Arr(moved)), k) ==
                              if k == "policyItems" then Some(Arr(moved)) else Get(policy.members, k) {
              GetSet(policy.members, "policyItems", Arr(moved), k);
            }
            Success(Obj(Set(policy.members, "policyItems", Arr(moved))))
  }

  /** new_roles.py: the export must be a list of policies. */
  function PolicyItemsRolesToGroups(data: Json): (r: Result<Json, Raised>)
    ensures !data.Arr? ==> r == Failure(ValueError)
    ensures r.Success? ==> r.value.Arr? && |r.value.items| == |data.items|
    ensures r.Success? ==> forall i :: 0 <= i < |data.items| ==> MovePolicyRoles(data.items[i]) == Success(r.value.items[i])
    ensures data.Arr? && (forall i :: 0 <= i < |data.items| ==> MovePolicyRoles(data.items[i]).Success?) ==> r.Success?
  {
    if !data.Arr? then Failure(ValueError)
    else match MapEach(MovePolicyRoles, data.items)
      case Failure(e) => Failure(e)
      case Success(items) => Success(Arr(items))
  }

  /** Folding a policy's roles twice is folding them once. */
  lemma MovePolicyRolesIdempotent(policy: Json)
    requires MovePolicyRoles(policy).Success?
    ensures MovePolicyRoles(MovePolicyRoles(policy).value) == MovePolicyRoles(policy)
  {
    var out := MovePolicyRoles(policy).value;
    if out != policy {
      var items := GetOr(policy.members, "policyItems", Arr([]));
      var moved := MoveAll(items.items).value;
      MoveAllIdempotent(items.items);
      assert "policyItems" in Keys(out.members);
      assert GetOr(out.members, "policyItems", Arr([])) == Arr(moved);
      SetSame(out.members, "policyItems", Arr(moved));
    }
  }

  // ---------------------------------------------------------------------------
  // Granting a group permissions on a policy.
  // ---------------------------------------------------------------------------

  /** The permission letters and the Ranger access types they stand for. */
  function PermName(c: char): Option<string> {
    if c == 'r' then Some("read")
    else if c == 'w' then Some("write")
    else if c == 'x' then Some("execute")
    else None
  }

  /** An `rwx` column: each known letter, in order and with repeats, becomes
      its access type; every other character is dropped. */
  function ParseRwx(s: string): (r: seq<string>)
    ensures forall p :: p in r ==> p in ["read", "write", "execute"]
    ensures |r| <= |s|
    ensures (forall i :: 0 <= i < |s| ==> PermName(s[i]).None?) <==> r == []
    decreases |s|
  {
    if |s| == 0 then []
    else
      var rest := ParseRwx(s[1..]);
      assert forall i :: 1 <= i < |s| ==> s[i] == s[1..][i - 1];
      match PermName(s[0])
      case Some(p) => [p] + rest
      case None => rest
  }

  /** Parsing is compositional: a column is its parts parsed in turn. */
  lemma {:induction false} ParseRwxAppend(a: string, b: string)
    ensures ParseRwx(a + b) == ParseRwx(a) + ParseRwx(b)
    decreases |a|
  {
    if |a| > 0 {
      assert (a + b)[0] == a[0] && (a + b)[1..] == a[1..] + b;
      ParseRwxAppend(a[1..], b);
    } else {
      assert a + b == b;
    }
  }

  /** The access entry granting one permission. */
  function Access(p: string): Json {
    Obj([Member("type", Str(p)), Member("isAllowed", Bool(true))])
  }

  function Accesses(ps: seq<string>): (r: seq<Json>)
    ensures |r| == |ps| && forall i :: 0 <= i < |ps| ==> r[i] == Access(ps[i])
  {
    seq(|ps|, i requires 0 <= i < |ps| => Access(ps[i]))
  }

  /** The policy item added for a group the policy does not mention yet. */
  function NewItem(group: string, perms: seq<string>): Json {
    Obj([Member("accesses", Arr(Accesses(perms))), Member("groups", Arr([Str(group)])),
         Member("users", Arr([])), Member("delegateAdmin", Bool(false))])
  }

  /** `group in item.get("groups", [])`. */
  function HasGroup(item: Json, group: string): Result<bool, Raised> {
    if !item.Obj? then Failure(AttributeError) else In(group, GetOr(item.members, "groups", Arr([])))
  }

  /** Position of the first item naming the group, or the list's length;
      the loop dies on an item it cannot examine. */
  function FirstWithGroup(items: seq<Json>, group: string, i: nat): (r: Result<nat, Raised>)
    requires i <= |items|
    ensures r.Success? ==> i <= r.value <= |items|
    ensures r.Success? ==> forall t :: i <= t < r.value ==> HasGroup(items[t], group) == Success(false)
    ensures r.Success? && r.value < |items| ==> HasGroup(items[r.value], group) == Success(true)
    decreases |items| - i
  {
    if i == |items| then Success(i)
    else match HasGroup(items[i], group)
      case Failure(e) => Failure(e)
      case Success(true) => Success(i)
      case Success(false) => FirstWithGroup(items, group, i + 1)
  }

  /** Lines 34-37 as written: inside the generator the name `item` is rebound
      to each access, so a non-empty access list is read as accesses of
      accesses and dies; an empty one receives every permission asked for. */
  function GrantAsWritten(item: Json, perms: seq<string>): (r: Result<Json, Raised>)
    requires item.Obj?
  {
    match Get(item.members, "accesses")
    case None => Failure(KeyError)
    case Some(a) =>
      match Elements(a)
      case None => Failure(TypeError)
      case Some(es) =>
        if |es| > 0 then Failure(KeyError)
        else if |perms| == 0 then Success(item)
        else if !a.Arr? then Failure(AttributeError)
        else Success(Obj(Set(item.members, "accesses", Arr(Accesses(perms)))))
  }

  /** `access["type"]`. */
  function TypeOf(access: Json): Option<Json> {
    if access.Obj? then Get(access.members, "type") else None
  }

  /** The access types of an access list; each access must carry a type. */
  function Types(accesses: seq<Json>): (r: Option<seq<Json>>)
    ensures r.Some? <==> forall i :: 0 <= i < |accesses| ==> TypeOf(accesses[i]).Some?
    ensures r.Some? ==> |r.value| == |accesses|
    ensures r.Some? ==> forall i :: 0 <= i < |accesses| ==> TypeOf(accesses[i]) == Some(r.value[i])
    decreases |accesses|
  {
    if |accesses| == 0 then Some([])
    else match TypeOf(accesses[0])
      case None => None
      case Some(t) =>
        match Types(accesses[1..])
        case None => None
        case Some(rest) => Some([t] + rest)
  }

  /** The permissions whose type is not among `have`, in order, each once:
      a permission appended counts as present from then on. */
  function Missing(perms: seq<string>, have: seq<Json>): (r: seq<string>)
    ensures forall p :: p in r <==> p in perms && Str(p) !in have
    ensures forall i, j :: 0 <= i < j < |r| ==> r[i] != r[j]
    decreases |perms|
  {
    if |perms| == 0 then []
    else if Str(perms[0]) in have then Missing(perms[1..], have)
    else [perms[0]] + Missing(perms[1..], have + [Str(perms[0])])
  }

  /** Lines 34-37 as evidently intended: the existing types are those of the
      item's own accesses, and each permission not among them is appended
      once. */
  function Grant(item: Json, perms: seq<string>): (r: Result<Json, Raised>)
    requires item.Obj?
  {
    match Get(item.members, "accesses")
    case None => Failure(KeyError)
    case Some(a) =>
      if !a.Arr? then Failure(TypeError)
      else match Types(a.items)
        case None => Failure(KeyError)
        case Some(have) => Success(Obj(Set(item.members, "accesses", Arr(a.items + Accesses(Missing(perms, have))))))
  }

  /** Lines 31-48 on the policy's item list: the first item naming the group
      gets the permissions, or a new item is appended. */
  function UpdateItems(items: seq<Json>, group: string, perms: seq<string>, intended: bool): Result<seq<Json>, Raised> {
    match FirstWithGroup(items, group, 0)
    case Failure(e) => Failure(e)
    case Success(j) =>
      if j == |items| then Success(items + [NewItem(group, perms)])
      else
        var granted := if intended then Grant(items[j], perms) else GrantAsWritten(items[j], perms);
        match granted
        case Failure(e) => Failure(e)
        case Success(item) => Success(items[j := item])
  }

  /** `update_policy` on the fetched policy, up to the policy it sends back. */
  function UpdatePolicy(policy: Json, group: string, perms: seq<string>, intended: bool): (r: Result<Json, Raised>)
    ensures r.Success? ==> policy.Obj? && r.value.Obj?
    ensures r.Success? <==> policy.Obj? && GetOr(policy.members, "policyItems", Null).Arr? &&
                            UpdateItems(GetOr(policy.members, "policyItems", Null).items, group, perms, intended).Success?
    ensures policy.Obj? && "policyItems" !in Keys(policy.members) ==> r == Failure(KeyError)
  {
    if !policy.Obj? then Failure(AttributeError)
    else match Get(policy.members, "policyItems")
      case None => Failure(KeyError)
      case Some(v) =>
        if !v.Arr? then
          // Strings and objects iterate as strings, which have no `.get`, and
          // have no `.append` either; other values do not iterate.
          if v.Str? || v.Obj? then Failure(AttributeError) else Failure(TypeError)
        else match UpdateItems(v.items, group, perms, intended)
          case Failure(e) => Failure(e)
          case Success(items) => Success(Obj(Set(policy.members, "policyItems", Arr(items))))
  }

  /** The update sends back the fetched policy with only its items changed. */
  lemma UpdatePolicyShape(policy: Json, group: string, perms: seq<string>, intended: bool)
    requires UpdatePolicy(policy, group, perms, intended).Success?
    ensures var out := UpdatePolicy(policy, group, perms, intended).value;
      var items := UpdateItems(GetOr(policy.members, "policyItems", Null).items, group, perms, intended).value;
      Get(out.members, "policyItems") == Some(Arr(items)) &&
      forall k :: k != "policyItems" ==> Get(out.members, k) == Get(policy.members, k)
  {
    var v := GetOr(policy.members, "policyItems", Null);
    var items := UpdateItems(v.items, group, perms, intended).value;
    forall k ensures Get(Set(policy.members, "policyItems", Arr(items)), k) ==
                      if k == "policyItems" then Some(Arr(items)) else Get(policy.members, k) {
      GetSet(policy.members, "policyItems", Arr(items), k);
    }
  }

  /** The item's accesses include one of type `p`. */
  ghost predicate Grants(item: Json, p: string) {
    Typed(item) && Str(p) in Types(GetOr(item.members, "accesses", Null).items).value
  }

  /** The item has an access list whose every access carries a type. */
  ghost predicate Typed(item: Json) {
    item.Obj? &&
    var a := GetOr(item.members, "accesses", Null);
    a.Arr? && Types(a.items).Some?
  }

  function Strs(ps: seq<string>): (r: seq<Json>)
    ensures |r| == |ps| && forall i :: 0 <= i < |ps| ==> r[i] == Str(ps[i])
  {
    seq(|ps|, i requires 0 <= i < |ps| => Str(ps[i]))
  }

  lemma TypeOfAccess(p: string)
    ensures TypeOf(Access(p)) == Some(Str(p))
  {
    assert Find(Access(p).members, "type") == 0;
  }

  lemma TypesAppend(xs: seq<Json>, ys: seq<Json>)
    requires Types(xs).Some? && Types(ys).Some?
    ensures Types(xs + ys) == Some(Types(xs).value + Types(ys).value)
  {
    var zs := xs + ys;
    var e := Types(xs).value + Types(ys).value;
    forall i | 0 <= i < |zs| ensures TypeOf(zs[i]) == Some(e[i]) {
      if i < |xs| {
        assert zs[i] == xs[i];
      } else {
        assert zs[i] == ys[i - |xs|];
      }
    }
    assert Types(zs).Some?;
    assert Types(zs).value == e;
  }

  lemma {:induction false} TypesAccesses(ps: seq<string>)
    ensures Types(Accesses(ps)) == Some(Strs(ps))
    decreases |ps|
  {
    if |ps| > 0 {
      TypeOfAccess(ps[0]);
      assert Accesses(ps)[1..] == Accesses(ps[1..]);
      TypesAccesses(ps[1..]);
      assert Strs(ps) == [Str(ps[0])] + Strs(ps[1..]);
    }
  }

  lemma {:induction false} NothingMissing(perms: seq<string>, have: seq<Json>)
    requires forall p :: p in perms ==> Str(p) in have
    ensures Missing(perms, have) == []
    decreases |perms|
  {
    if |perms| > 0 {
      assert perms[0] in perms;
      NothingMissing(perms[1..], have);
    }
  }

  lemma MissingTypes(have: seq<Json>, perms: seq<string>)
    ensures forall p :: Str(p) in have + Strs(Missing(perms, have)) <==> Str(p) in have || p in perms
  {
    var missing := Missing(perms, have);
    forall p ensures Str(p) in have + Strs(missing) <==> Str(p) in have || p in perms {
      if p in missing {
        var i :| 0 <= i < |missing| && missing[i] == p;
        assert (have + Strs(missing))[|have| + i] == Str(p);
      }
      if Str(p) in have + Strs(missing) && Str(p) !in have {
        var i :| 0 <= i < |have + Strs(missing)| && (have + Strs(missing))[i] == Str(p);
        assert missing[i - |have|] == p;
      }
    }
  }

  /** The intended grant adds exactly the permissions asked for to the types
      the item already grants, and touches nothing but its accesses. */
  lemma GrantGrants(item: Json, perms: seq<string>)
    requires item.Obj? && Grant(item, perms).Success?
    ensures Grant(item, perms).value.Obj? && Typed(item) && Typed(Grant(item, perms).value)
    ensures forall k :: k != "accesses" ==> Get(Grant(item, perms).value.members, k) == Get(item.members, k)
    ensures forall p :: Grants(Grant(item, perms).value, p) <==> Grants(item, p) || p in perms
  {
    var out := Grant(item, perms).value;
    var a := Get(item.members, "accesses").value;
    var have := Types(a.items).value;
    var missing := Missing(perms, have);
    var a2 := Arr(a.items + Accesses(missing));
    assert out.members == Set(item.members, "accesses", a2);
    forall k ensures Get(out.members, k) == if k == "accesses" then Some(a2) else Get(item.members, k) {
      GetSet(item.members, "accesses", a2, k);
    }
    TypesAccesses(missing);
    TypesAppend(a.items, Accesses(missing));
    MissingTypes(have, perms);
    assert GetOr(out.members, "accesses", Null) == a2;
    assert GetOr(item.members, "accesses", Null) == a;
  }

  /** No access type occurs twice in the item. */
  ghost predicate UniqueTypes(item: Json)
    requires Typed(item)
  {
    var t := Types(GetOr(item.members, "accesses", Null).items).value;
    forall i, j :: 0 <= i < j < |t| ==> t[i] != t[j]
  }

  /** The intended grant never repeats a type: an item granting each type
      once still does afterwards, whatever repeats the request holds. */
  lemma GrantKeepsUnique(item: Json, perms: seq<string>)
    requires item.Obj? && Grant(item, perms).Success?
    requires Typed(item) && UniqueTypes(item)
    ensures Typed(Grant(item, perms).value) && UniqueTypes(Grant(item, perms).value)
  {
    GrantGrants(item, perms);
    var out := Grant(item, perms).value;
    var a := Get(item.members, "accesses").value;
    var have := Types(a.items).value;
    var missing := Missing(perms, have);
    var a2 := Arr(a.items + Accesses(missing));
    GetSet(item.members, "accesses", a2, "accesses");
    assert GetOr(out.members, "accesses", Null) == a2;
    TypesAccesses(missing);
    TypesAppend(a.items, Accesses(missing));
    assert Types(a2.items).value == have + Strs(missing);
    AppendDistinct(have, missing);
  }

  /** Appending distinct new names to distinct types keeps them distinct. */
  lemma AppendDistinct(have: seq<Json>, missing: seq<string>)
    requires forall i, j :: 0 <= i < j < |have| ==> have[i] != have[j]
    requires forall i, j :: 0 <= i < j < |missing| ==> missing[i] != missing[j]
    requires forall p :: p in missing ==> Str(p) !in have
    ensures var t := have + Strs(missing); forall i, j :: 0 <= i < j < |t| ==> t[i] != t[j]
  {
    var t := have + Strs(missing);
    forall i, j | 0 <= i < j < |t| ensures t[i] != t[j] {
      if j >= |have| {
        assert t[j] == Str(missing[j - |have|]);
        if i >= |have| {
          assert t[i] == Str(missing[i - |have|]);
        } else {
          assert missing[j - |have|] in missing;
        }
      }
    }
  }

  /** The search fails only on an item it cannot examine. */
  lemma {:induction false} FirstWithGroupFails(items: seq<Json>, group: string, i: nat)
    requires i <= |items|
    ensures FirstWithGroup(items, group, i).Failure? ==> exists t :: i <= t < |items| && HasGroup(items[t], group).Failure?
    ensures (forall t :: i <= t < |items| ==> HasGroup(items[t], group).Success?) ==> FirstWithGroup(items, group, i).Success?
    decreases |items| - i
  {
    if i < |items| && HasGroup(items[i], group) == Success(false) {
      FirstWithGroupFails(items, group, i + 1);
    }
  }

  lemma FirstWithGroupStep(items: seq<Json>, group: string, i: nat)
    requires i < |items| && HasGroup(items[i], group) == Success(false)
    ensures FirstWithGroup(items, group, i) == FirstWithGroup(items, group, i + 1)
  {
  }

  lemma FirstWithGroupHit(items: seq<Json>, group: string, i: nat)
    requires i < |items| && HasGroup(items[i], group) == Success(true)
    ensures FirstWithGroup(items, group, i) == Success(i)
  {
  }

  lemma {:induction false} FirstWithGroupAt(items: seq<Json>, group: string, i: nat, j: nat)
    requires i <= j < |items|
    requires forall t :: i <= t < j ==> HasGroup(items[t], group) == Success(false)
    requires HasGroup(items[j], group) == Success(true)
    ensures FirstWithGroup(items, group, i) == Success(j)
    decreases j - i, 1
  {
    if i < j {
      FirstWithGroupPast(items, group, i, j);
    } else {
      FirstWithGroupHit(items, group, i);
    }
  }

  lemma {:induction false} FirstWithGroupPast(items: seq<Json>, group: string, i: nat, j: nat)
    requires i < j < |items|
    requires forall t :: i <= t < j ==> HasGroup(items[t], group) == Success(false)
    requires HasGroup(items[j], group) == Success(true)
    ensures FirstWithGroup(items, group, i) == Success(j)
    decreases j - i, 0
  {
    FirstWithGroupStep(items, group, i);
    FirstWithGroupAt(items, group, i + 1, j);
  }

  /** The appended item names the group and grants every permission. */
  lemma NewItemGrants(group: string, perms: seq<string>)
    ensures HasGroup(NewItem(group, perms), group) == Success(true)
    ensures Typed(NewItem(group, perms)) && forall p :: p in perms ==> Grants(NewItem(group, perms), p)
  {
    var item := NewItem(group, perms);
    assert Find(item.members, "groups") == 1;
    assert Find(item.members, "accesses") == 0;
    TypesAccesses(perms);
    forall p | p in perms ensures Grants(item, p) {
      var i :| 0 <= i < |perms| && perms[i] == p;
      assert Strs(perms)[i] == Str(p);
    }
  }

  /** With the intended grant, the first item naming the group ends up
      granting every permission asked for (a new item when none named it),
      the types it already granted stay, and every other item is unchanged. */
  lemma UpdateItemsGrants(before: seq<Json>, group: string, perms: seq<string>) returns (j: nat)
    requires UpdateItems(before, group, perms, true).Success?
    ensures var after := UpdateItems(before, group, perms, true).value;
      j < |after| && FirstWithGroup(after, group, 0) == Success(j) &&
      Typed(after[j]) && (forall p :: p in perms ==> Grants(after[j], p)) &&
      |after| == (if j < |before| then |before| else |before| + 1) &&
      (forall t :: 0 <= t < |before| && t != j ==> after[t] == before[t]) &&
      (j < |before| ==> forall p :: Grants(after[j], p) <==> Grants(before[j], p) || p in perms)
  {
    j := FirstWithGroup(before, group, 0).value;
    var after := UpdateItems(before, group, perms, true).value;
    if j == |before| {
      assert after == before + [NewItem(group, perms)];
      NewItemGrants(group, perms);
    } else {
      var item := Grant(before[j], perms).value;
      assert after == before[j := item];
      GrantGrants(before[j], perms);
      assert GetOr(item.members, "groups", Arr([])) == GetOr(before[j].members, "groups", Arr([]));
    }
    FirstWithGroupAt(after, group, 0, j);
  }

  /** Granting what an item already grants changes nothing. */
  lemma GrantNothingNew(item: Json, perms: seq<string>)
    requires Typed(item) && forall p :: p in perms ==> Grants(item, p)
    ensures Grant(item, perms) == Success(item)
  {
    var a := GetOr(item.members, "accesses", Null);
    var have := Types(a.items).value;
    NothingMissing(perms, have);
    assert a.items + Accesses([]) == a.items;
    assert "accesses" in Keys(item.members);
    SetSame(item.members, "accesses", a);
  }

  /** With the intended grant, applying the same row twice to the item list
      is applying it once. */
  lemma UpdateItemsIdempotent(before: seq<Json>, group: string, perms: seq<string>)
    requires UpdateItems(before, group, perms, true).Success?
    ensures var after := UpdateItems(before, group, perms, true).value;
      UpdateItems(after, group, perms, true) == Success(after)
  {
    var after := UpdateItems(before, group, perms, true).value;
    var j := UpdateItemsGrants(before, group, perms);
    GrantNothingNew(after[j], perms);
    assert after[j := after[j]] == after;
  }

  /** With the intended grant, sending the same row twice leaves the policy as
      sending it once. */
  lemma UpdatePolicyIdempotent(policy: Json, group: string, perms: seq<string>)
    requires UpdatePolicy(policy, group, perms, true).Success?
    ensures UpdatePolicy(UpdatePolicy(policy, group, perms, true).value, group, perms, true) ==
            UpdatePolicy(policy, group, perms, true)
  {
    var out := UpdatePolicy(policy, group, perms, true).value;
    var before := GetOr(policy.members, "policyItems", Null).items;
    var after := UpdateItems(before, group, perms, true).value;
    UpdatePolicyShape(policy, group, perms, true);
    UpdateItemsIdempotent(before, group, perms);
    SetSame(out.members, "policyItems", Arr(after));
  }

  /** A policy whose one item gives group `etl` read access. */
  const ReadItem := Obj([Member("accesses", Arr([Access("read")])), Member("groups", Arr([Str("etl")]))])
  const ReadPolicy := Obj([Member("id", Num(7)), Member("policyItems", Arr([ReadItem]))])

  lemma ReadPolicyFound()
    ensures Get(ReadPolicy.members, "policyItems") == Some(Arr([ReadItem]))
    ensures FirstWithGroup([ReadItem], "etl", 0) == Success(0)
    ensures Get(ReadItem.members, "accesses") == Some(Arr([Access("read")]))
  {
    assert Find(ReadPolicy.members, "policyItems") == 1;
    assert Find(ReadItem.members, "groups") == 1;
    assert Find(ReadItem.members, "accesses") == 0;
    assert HasGroup(ReadItem, "etl") == Success(true);
  }

  /** Line 34 as written: granting `etl` write access on a policy where it
      already reads makes the update die with a `KeyError`. */
  lemma ExistingTypesMisread()
    ensures UpdatePolicy(ReadPolicy, "etl", ["write"], false) == Failure(KeyError)
  {
    ReadPolicyFound();
    assert GrantAsWritten(ReadItem, ["write"]) == Failure(KeyError);
    assert UpdateItems([ReadItem], "etl", ["write"], false) == Failure(KeyError);
  }

  /** Line 34 as written, for every item with an access list: the grant dies
      with a `KeyError` exactly when the list is non-empty. */
  lemma AsWrittenGrantFails(item: Json, perms: seq<string>, xs: seq<Json>)
    requires item.Obj? && Get(item.members, "accesses") == Some(Arr(xs))
    ensures GrantAsWritten(item, perms) == Failure(KeyError) <==> |xs| > 0
    ensures |xs| == 0 ==> GrantAsWritten(item, perms).Success?
  {
  }

  const ReadWriteItem := Obj([Member("accesses", Arr([Access("read"), Access("write")])), Member("groups", Arr([Str("etl")]))])
  const ReadWritePolicy := Obj([Member("id", Num(7)), Member("policyItems", Arr([ReadWriteItem]))])

  /** The intended reading of line 34 on the same policy: write is added
      after read. */
  lemma ExistingTypesRead()
    ensures UpdatePolicy(ReadPolicy, "etl", ["write"], true) == Success(ReadWritePolicy)
  {
    ReadPolicyFound();
    ReadItemsGranted();
    UpdatedPolicy(ReadPolicy, "etl", ["write"], true, [ReadItem], [ReadWriteItem]);
    ReadWriteMembers();
  }

  lemma Overwrite<T>(a: T, b: T)
    ensures [a][0 := b] == [b]
  {
  }

  lemma ReadItemsGranted()
    ensures UpdateItems([ReadItem], "etl", ["write"], true) == Success([ReadWriteItem])
  {
    ReadPolicyFound();
    GrantReadWrite();
    Overwrite(ReadItem, ReadWriteItem);
    GrantedAt([ReadItem], "etl", ["write"], 0, ReadWriteItem);
  }

  lemma ReadWriteMembers()
    ensures Set(ReadPolicy.members, "policyItems", Arr([ReadWriteItem])) == ReadWritePolicy.members
  {
    assert Find(ReadPolicy.members, "policyItems") == 1;
  }

  lemma GrantedAt(items: seq<Json>, group: string, perms: seq<string>, j: nat, item: Json)
    requires FirstWithGroup(items, group, 0) == Success(j) && j < |items|
    requires items[j].Obj? && Grant(items[j], perms) == Success(item)
    ensures UpdateItems(items, group, perms, true) == Success(items[j := item])
  {
  }

  lemma UpdatedPolicy(policy: Json, group: string, perms: seq<string>, intended: bool, items: seq<Json>, after: seq<Json>)
    requires policy.Obj? && Get(policy.members, "policyItems") == Some(Arr(items))
    requires UpdateItems(items, group, perms, intended) == Success(after)
    ensures UpdatePolicy(policy, group, perms, intended) == Success(Obj(Set(policy.members, "policyItems", Arr(after))))
  {
  }

  lemma GrantReadWrite()
    ensures Grant(ReadItem, ["write"]) == Success(ReadWriteItem)
  {
    ReadPolicyFound();
    ReadTypes();
    WriteMissing();
    GrantUnfold(ReadItem, [Access("read")], [Str("read")], ["write"]);
    ReadWriteSet();
  }

  lemma GrantUnfold(item: Json, xs: seq<Json>, have: seq<Json>, perms: seq<string>)
    requires item.Obj? && Get(item.members, "accesses") == Some(Arr(xs)) && Types(xs) == Some(have)
    ensures Grant(item, perms) == Success(Obj(Set(item.members, "accesses", Arr(xs + Accesses(Missing(perms, have))))))
  {
  }

  lemma ReadTypes()
    ensures Types([Access("read")]) == Some([Str("read")])
  {
    var xs := [Access("read")];
    TypeOfAccess("read");
    assert xs[0] == Access("read") && xs[1..] == [];
    assert Types(xs[1..]) == Some([]);
    assert [Str("read")] + [] == [Str("read")];
  }

  lemma WriteMissing()
    ensures Missing(["write"], [Str("read")]) == ["write"]
  {
  }

  lemma ReadWriteSet()
    ensures Set(ReadItem.members, "accesses", Arr([Access("read")] + Accesses(["write"]))) == ReadWriteItem.members
  {
    assert [Access("read")] + Accesses(["write"]) == [Access("read"), Access("write")];
    assert Find(ReadItem.members, "accesses") == 0;
  }

  /** An item naming group `etl` with no accesses yet. */
  const BareItem := Obj([Member("accesses", Arr([])), Member("groups", Arr([Str("etl")]))])

  function WithAccesses(ps: seq<string>): Json {
    Obj([Member("accesses", Arr(Accesses(ps))), Member("groups", Arr([Str("etl")]))])
  }

  /** Lines 35-37 as written: the types present are never updated while
      appending, so a permission repeated in the column is granted twice. */
  lemma RepeatedPermAppendedTwice()
    ensures ParseRwx("rr") == ["read", "read"]
    ensures GrantAsWritten(BareItem, ParseRwx("rr")) == Success(WithAccesses(["read", "read"]))
  {
    ParseRr();
    assert Find(BareItem.members, "accesses") == 0;
    BareSet(["read", "read"]);
  }

  /** The intended grant appends the repeated permission once. */
  lemma RepeatedPermAppendedOnce()
    ensures Grant(BareItem, ParseRwx("rr")) == Success(WithAccesses(["read"]))
  {
    ParseRr();
    assert Find(BareItem.members, "accesses") == 0;
    assert Types([]) == Some([]);
    GrantUnfold(BareItem, [], [], ["read", "read"]);
    ReadTwiceMissing();
    BareSet(["read"]);
  }

  lemma ParseRr()
    ensures ParseRwx("rr") == ["read", "read"]
  {
    assert ParseRwx("rr"[1..]) == ["read"];
  }

  lemma ReadTwiceMissing()
    ensures Missing(["read", "read"], []) == ["read"]
  {
    assert Missing(["read"], [Str("read")]) == [];
  }

  /** Setting the accesses of the bare item. */
  lemma BareSet(ps: seq<string>)
    ensures Set(BareItem.members, "accesses", Arr([] + Accesses(ps))) == WithAccesses(ps).members
  {
    assert [] + Accesses(ps) == Accesses(ps);
    assert Find(BareItem.members, "accesses") == 0;
  }

  // ---------------------------------------------------------------------------
  // Hive URL policies move from the schemas to the data files.
  // ---------------------------------------------------------------------------

  /** `re.sub(r'\.db$', '', s)`: `$` matches at the very end and also just
      before a final newline (the two cannot both hold). */
  function StripDb(s: string): (r: string)
    ensures EndsWith(s, ".db") ==> r + ".db" == s
    ensures EndsWith(s, ".db\n") ==> r == s[..|s| - 4] + "\n"
    ensures !EndsWith(s, ".db") && !EndsWith(s, ".db\n") ==> r == s
  {
    if EndsWith(s, ".db") then
      assert s[|s| - 1] == s[|s| - 3..][2] == 'b';
      s[..|s| - 3]
    else if EndsWith(s, ".db\n") then s[..|s| - 4] + "\n"
    else s
  }

  /** Removing the suffix undoes appending it, once: `x.db.db` keeps one. */
  lemma StripDbUndoes(x: string)
    ensures StripDb(x + ".db") == x
  {
    assert EndsWith(x + ".db", ".db");
    assert (x + ".db")[..|x|] == x;
  }

  lemma {:induction false} ReplaceNoMatch(s: string, pat: string, rep: string)
    requires |pat| > 0 && !Contains(s, pat)
    ensures ReplaceAll(s, pat, rep) == s
    decreases |s|
  {
    if |s| >= |pat| {
      assert s[..|pat|] != pat;
      ReplaceNoMatch(s[1..], pat, rep);
      assert [s[0]] + s[1..] == s;
    }
  }

  /** One URL value: schema directories become data-file directories, then
      a trailing `.db` goes. */
  function Rewrite(v: string): string {
    StripDb(ReplaceAll(v, "/schemas/", "/datafiles/"))
  }

  /** A value that never names a schema directory only loses its `.db`. */
  lemma RewriteOnlyStrips(x: string)
    requires !Contains(x + ".db", "/schemas/")
    ensures Rewrite(x + ".db") == x
  {
    ReplaceNoMatch(x + ".db", "/schemas/", "/datafiles/");
    StripDbUndoes(x);
  }

  /** The replacement is the join of the split, as Python defines it. */
  lemma RewriteSplits(v: string)
    ensures Rewrite(v) == StripDb(Join(SplitOn(v, "/schemas/"), "/datafiles/"))
  {
    ReplaceIsSplitJoin(v, "/schemas/", "/datafiles/");
  }

  function RewriteAll(vs: seq<string>): (r: seq<string>)
    ensures |r| == |vs| && forall i :: 0 <= i < |vs| ==> r[i] == Rewrite(vs[i])
  {
    seq(|vs|, i requires 0 <= i < |vs| => Rewrite(vs[i]))
  }

  /** A Hive policy with a URL resource. */
  predicate HiveUrl(policy: Json) {
    policy.Obj? && Get(policy.members, "service") == Some(Str("cm_hive")) &&
    var resources := GetOr(policy.members, "resources", Obj([]));
    resources.Obj? && "url" in Keys(resources.members)
  }

  /** The policy's URL values, as the script reads them. */
  function UrlValues(policy: Json): Option<seq<string>> {
    if !policy.Obj? then None
    else
      var resources := GetOr(policy.members, "resources", Obj([]));
      if !resources.Obj? then None
      else
        var url := GetOr(resources.members, "url", Null);
        if !url.Obj? then None else Names(GetOr(url.members, "values", Arr([])))
  }

  /** schemas.py, one policy: a Hive policy with a URL resource has every URL
      value rewritten; any other policy is left as it is. */
  function RewriteUrls(policy: Json): (r: Result<Json, Raised>)
    ensures !policy.Obj? ==> r == Failure(AttributeError)
    ensures r.Success? && !HiveUrl(policy) ==> r.value == policy
    ensures HiveUrl(policy) ==> (r.Success? <==> UrlValues(policy).Some?)
  {
    if !policy.Obj? then Failure(AttributeError)
    else if Get(policy.members, "service") != Some(Str("cm_hive")) then Success(policy)
    else
      var resources := GetOr(policy.members, "resources", Obj([]));
      match In("url", resources)
      case Failure(e) => Failure(e)
      case Success(false) => Success(policy)
      case Success(true) =>
        // A list or string has no `["url"]`.
        if !resources.Obj? then Failure(TypeError)
        else
          var url := GetOr(resources.members, "url", Null);
          if !url.Obj? then Failure(AttributeError)
          else
            var values := GetOr(url.members, "values", Arr([]));
            match Names(values)
            case None => if Elements(values).None? then Failure(TypeError) else Failure(AttributeError)
            case Some(vs) =>
              var url2 := Obj(Set(url.members, "values", StrArr(RewriteAll(vs))));
              var resources2 := Obj(Set(resources.members, "url", url2));
              Success(Obj(Set(policy.members, "resources", resources2)))
  }

  /** The rewritten policy, spelled out. */
  lemma RewriteUrlsOut(policy: Json)
    requires HiveUrl(policy) && RewriteUrls(policy).Success?
    ensures var resources := GetOr(policy.members, "resources", Obj([]));
      var url := GetOr(resources.members, "url", Null);
      var url2 := Obj(Set(url.members, "values", StrArr(RewriteAll(UrlValues(policy).value))));
      RewriteUrls(policy).value == Obj(Set(policy.members, "resources", Obj(Set(resources.members, "url", url2))))
  {
  }

  /** The rewritten policy differs from the original only in its URL values,
      which are the original values rewritten one by one, in order. */
  lemma RewriteUrlsValues(policy: Json)
    requires HiveUrl(policy) && RewriteUrls(policy).Success?
    ensures var out := RewriteUrls(policy).value;
      out.Obj? && UrlValues(out) == Some(RewriteAll(UrlValues(policy).value)) &&
      (forall k :: k != "resources" ==> Get(out.members, k) == Get(policy.members, k)) &&
      var resources := GetOr(policy.members, "resources", Obj([]));
      var resources2 := GetOr(out.members, "resources", Obj([]));
      resources2.Obj? &&
      (forall k :: k != "url" ==> Get(resources2.members, k) == Get(resources.members, k)) &&
      var url := GetOr(resources.members, "url", Null);
      var url2 := GetOr(resources2.members, "url", Null);
      url2.Obj? && forall k :: k != "values" ==> Get(url2.members, k) == Get(url.members, k)
  {
    var resources := GetOr(policy.members, "resources", Obj([]));
    var url := GetOr(resources.members, "url", Null);
    var vs := UrlValues(policy).value;
    var url2 := Obj(Set(url.members, "values", StrArr(RewriteAll(vs))));
    var resources2 := Obj(Set(resources.members, "url", url2));
    RewriteUrlsOut(policy);
    SetGets(policy.members, "resources", resources2);
    SetGets(resources.members, "url", url2);
    SetGets(url.members, "values", StrArr(RewriteAll(vs)));
    NamesOfStrArr(RewriteAll(vs));
  }

  /** schemas.py: every policy of the export, in order. */
  function RewriteAllUrls(policies: Json): (r: Result<Json, Raised>)
    ensures r.Success? && policies.Arr? ==> r.value.Arr? && |r.value.items| == |policies.items|
    ensures r.Success? && policies.Arr? ==>
      forall i :: 0 <= i < |policies.items| ==> RewriteUrls(policies.items[i]) == Success(r.value.items[i])
    ensures policies.Arr? && (forall i :: 0 <= i < |policies.items| ==> RewriteUrls(policies.items[i]).Success?) ==> r.Success?
  {
    match Elements(policies)
    case None => Failure(TypeError)
    case Some(es) =>
      if |es| == 0 then Success(policies)
      else match MapEach(RewriteUrls, es)
        case Failure(e) => Failure(e)
        case Success(out) => Success(Arr(out))
  }
}
