/**
  JSON documents as `json.load` hands them to the Ranger scripts. An object
  is a Python `dict`: its members keep insertion order and their keys are
  distinct; assigning to a present key keeps its position, assigning to a new
  key appends, and `pop`/`del` removes the one member.
*/
module Json {

  import opened Wrappers
  import opened Text

  datatype Json =
    | Null
    | Bool(b: bool)
    | Num(n: int)
    | Str(s: string)
    | Arr(items: seq<Json>)
    | Obj(members: seq<Member>)

  datatype Member = Member(key: string, value: Json)

  /** The Python exceptions a script raises on JSON of an unexpected shape,
      and the `requests` exception of a post that gets no answer. */
  datatype Raised = ValueError | TypeError | KeyError | AttributeError | RequestException

  function Keys(ms: seq<Member>): (ks: seq<string>)
    ensures |ks| == |ms| && forall i :: 0 <= i < |ms| ==> ks[i] == ms[i].key
  {
    if |ms| == 0 then [] else [ms[0].key] + Keys(ms[1..])
  }

  /** The `dict` invariant. */
  predicate UniqueKeys(ms: seq<Member>) {
    forall i, j :: 0 <= i < j < |ms| ==> ms[i].key != ms[j].key
  }

  /** `d.get(k, default)`. */
  function GetOr(ms: seq<Member>, k: string, default: Json): (r: Json)
    ensures k in Keys(ms) ==> Get(ms, k) == Some(r)
    ensures k !in Keys(ms) ==> r == default
  {
    match Get(ms, k)
    case Some(v) => v
    case None => default
  }

  /** Position of key `k`, or `|ms|` when absent. */
  function Find(ms: seq<Member>, k: string): (i: nat)
    ensures i <= |ms|
    ensures i < |ms| ==> ms[i].key == k
    ensures forall j :: 0 <= j < i ==> ms[j].key != k
    decreases |ms|
  {
    if |ms| == 0 then 0 else if ms[0].key == k then 0 else 1 + Find(ms[1..], k)
  }

  /** `d.get(k)`. */
  function Get(ms: seq<Member>, k: string): (r: Option<Json>)
    ensures r.None? <==> k !in Keys(ms)
    ensures r.Some? ==> Member(k, r.value) in ms
  {
    var i := Find(ms, k);
    if i < |ms| then Some(ms[i].value) else None
  }

  /** `d[k] = v`. */
  function Set(ms: seq<Member>, k: string, v: Json): (r: seq<Member>)
    ensures Keys(r) == if k in Keys(ms) then Keys(ms) else Keys(ms) + [k]
  {
    var i := Find(ms, k);
    if i < |ms| then ms[i := Member(k, v)] else ms + [Member(k, v)]
  }

  /** `d.pop(k, None)` and `del d[k]` (the latter only called on a present key). */
  function Remove(ms: seq<Member>, k: string): (r: seq<Member>)
    ensures |r| == if k in Keys(ms) then |ms| - 1 else |ms|
    ensures forall m :: m in r ==> m in ms
  {
    var i := Find(ms, k);
    if i < |ms| then ms[..i] + ms[i + 1..] else ms
  }

  lemma GetSet(ms: seq<Member>, k: string, v: Json, k2: string)
    ensures Get(Set(ms, k, v), k2) == if k2 == k then Some(v) else Get(ms, k2)
  {
    var i := Find(ms, k);
    var r := Set(ms, k, v);
    SetShape(ms, k, v);
    if k2 == k {
      FindAt(r, k, i);
    } else {
      var j := Find(ms, k2);
      if j < |ms| {
        FindAt(r, k2, j);
      } else {
        FindAt(r, k2, |r|);
      }
    }
  }

  /** `GetSet` for every other key at once. */
  lemma SetGets(ms: seq<Member>, k: string, v: Json)
    ensures Get(Set(ms, k, v), k) == Some(v)
    ensures forall k2 :: k2 != k ==> Get(Set(ms, k, v), k2) == Get(ms, k2)
  {
    GetSet(ms, k, v, k);
    forall k2 | k2 != k ensures Get(Set(ms, k, v), k2) == Get(ms, k2) {
      GetSet(ms, k, v, k2);
    }
  }

  /** `d[k] = v` overwrites the member at `k`'s position, or appends one. */
  lemma SetShape(ms: seq<Member>, k: string, v: Json)
    ensures var i, r := Find(ms, k), Set(ms, k, v);
      && i < |r| && r[i] == Member(k, v)
      && |r| == (if i < |ms| then |ms| else |ms| + 1)
      && (forall t :: 0 <= t < |ms| && t != i ==> r[t] == ms[t])
      && (forall t :: 0 <= t < |ms| ==> r[t].key == ms[t].key)
  {
  }

  /** `Find` characterised: the first position holding the key. */
  lemma FindAt(ms: seq<Member>, k: string, j: nat)
    requires j <= |ms|
    requires forall t :: 0 <= t < j ==> ms[t].key != k
    requires j < |ms| ==> ms[j].key == k
    ensures Find(ms, k) == j
    decreases j
  {
    if j > 0 {
      FindAt(ms[1..], k, j - 1);
    }
  }

  lemma SetUnique(ms: seq<Member>, k: string, v: Json)
    requires UniqueKeys(ms)
    ensures UniqueKeys(Set(ms, k, v))
  {
  }

  /** Removing the member at position `i` shifts the later members down. */
  lemma RemoveShifts(ms: seq<Member>, k: string)
    requires Find(ms, k) < |ms|
    ensures |Remove(ms, k)| == |ms| - 1
    ensures forall t :: 0 <= t < Find(ms, k) ==> Remove(ms, k)[t] == ms[t]
    ensures forall t :: Find(ms, k) <= t < |ms| - 1 ==> Remove(ms, k)[t] == ms[t + 1]
  {
    DropAt(ms, Find(ms, k), Remove(ms, k));
  }

  /** Dropping position `i` of a sequence. */
  lemma DropAt<T>(xs: seq<T>, i: nat, ys: seq<T>)
    requires i < |xs| && ys == xs[..i] + xs[i + 1..]
    ensures |ys| == |xs| - 1
    ensures forall t :: 0 <= t < i ==> ys[t] == xs[t]
    ensures forall t :: i <= t < |ys| ==> ys[t] == xs[t + 1]
  {
  }

  /** One member after the removal, and where it was before. */
  lemma RemoveIndex(ms: seq<Member>, k: string, t: nat)
    requires Find(ms, k) < |ms| && t < |ms| - 1
    ensures Remove(ms, k)[t] == if t < Find(ms, k) then ms[t] else ms[t + 1]
  {
    RemoveShifts(ms, k);
  }

  lemma RemoveUnique(ms: seq<Member>, k: string)
    requires UniqueKeys(ms)
    ensures UniqueKeys(Remove(ms, k))
  {
    var i := Find(ms, k);
    var r := Remove(ms, k);
    if i < |ms| {
      RemoveShifts(ms, k);
      forall t, u | 0 <= t < u < |r|
        ensures r[t].key != r[u].key
      {
        if u < i {
          assert r[t] == ms[t] && r[u] == ms[u];
        } else if t < i {
          assert r[t] == ms[t] && r[u] == ms[u + 1];
        } else {
          assert r[t] == ms[t + 1] && r[u] == ms[u + 1];
        }
      }
    }
  }

  lemma RemoveGone(ms: seq<Member>, k: string)
    requires UniqueKeys(ms)
    ensures Get(Remove(ms, k), k) == None
  {
    var i := Find(ms, k);
    var r := Remove(ms, k);
    if i < |ms| {
      RemoveShifts(ms, k);
      forall t | 0 <= t < |r|
        ensures r[t].key != k
      {
        var t2 := if t < i then t else t + 1;
        assert r[t] == ms[t2] && t2 != i;
      }
      FindAt(r, k, |r|);
    }
  }

  /** Where a key other than the removed one sits afterwards. */
  lemma RemoveFind(ms: seq<Member>, k: string, k2: string)
    requires k2 != k && Find(ms, k) < |ms|
    ensures var i, j := Find(ms, k), Find(ms, k2);
      Find(Remove(ms, k), k2) == if j < i then j else j - 1
  {
    var i, j := Find(ms, k), Find(ms, k2);
    var r := Remove(ms, k);
    assert |r| == |ms| - 1 by { RemoveShifts(ms, k); }
    if j < i {
      forall t | 0 <= t < j ensures r[t].key != k2 {
        RemoveIndex(ms, k, t);
      }
      RemoveIndex(ms, k, j);
      FindAt(r, k2, j);
    } else {
      assert j != i;
      forall t | 0 <= t < j - 1 ensures r[t].key != k2 {
        RemoveIndex(ms, k, t);
      }
      if j < |ms| {
        RemoveIndex(ms, k, j - 1);
      }
      FindAt(r, k2, j - 1);
    }
  }

  lemma RemoveKeeps(ms: seq<Member>, k: string, k2: string)
    requires k2 != k
    ensures Get(Remove(ms, k), k2) == Get(ms, k2)
  {
    var i, j := Find(ms, k), Find(ms, k2);
    if i < |ms| {
      var r := Remove(ms, k);
      RemoveFind(ms, k, k2);
      var j2 := Find(r, k2);
      if j < |ms| {
        assert j != i && j2 < |r|;
        RemoveIndex(ms, k, j2);
      } else {
        assert j2 == |r|;
      }
    }
  }

  lemma GetRemove(ms: seq<Member>, k: string, k2: string)
    requires UniqueKeys(ms)
    ensures UniqueKeys(Remove(ms, k))
    ensures Get(Remove(ms, k), k2) == if k2 == k then None else Get(ms, k2)
  {
    RemoveUnique(ms, k);
    if k2 == k {
      RemoveGone(ms, k);
    } else {
      RemoveKeeps(ms, k, k2);
    }
  }

  /** `d.get(k)` on any value: only an object has members. */
  function Field(j: Json, k: string): Option<Json> {
    if j.Obj? then Get(j.members, k) else None
  }

  /** Python truth value: `None`, `False`, zero and empty containers are false. */
  predicate Falsy(j: Json) {
    j == Null || j == Bool(false) || j == Num(0) || j == Str("") || j == Arr([]) || j == Obj([])
  }

  /** A JSON array of strings, read as a list. */
  function Strings(j: Json): (r: Option<seq<string>>)
    ensures r.Some? <==> j.Arr? && forall i :: 0 <= i < |j.items| ==> j.items[i].Str?
    ensures r.Some? ==> |r.value| == |j.items| && forall i :: 0 <= i < |j.items| ==> j.items[i] == Str(r.value[i])
    decreases if j.Arr? then |j.items| else 0
  {
    if !j.Arr? then None
    else if |j.items| == 0 then Some([])
    else if !j.items[0].Str? then None
    else match Strings(Arr(j.items[1..]))
      case None => None
      case Some(rest) => Some([j.items[0].s] + rest)
  }

  function StrArr(xs: seq<string>): (j: Json)
    ensures Strings(j) == Some(xs)
    decreases |xs|
  {
    if |xs| == 0 then Arr([])
    else
      var rest := StrArr(xs[1..]);
      assert rest == Arr(rest.items);
      assert Arr([Str(xs[0])] + rest.items).items[1..] == rest.items;
      assert [xs[0]] + xs[1..] == xs;
      Arr([Str(xs[0])] + rest.items)
  }

  /** What a `for` loop over the value visits: the items of a list, the
      one-character strings of a string, the keys of an object; other values
      are not iterable. */
  function Elements(j: Json): (r: Option<seq<Json>>)
    ensures r.None? <==> !(j.Arr? || j.Str? || j.Obj?)
    ensures j.Arr? ==> r == Some(j.items)
    ensures r.Some? ==> (|r.value| == 0 <==> Falsy(j))
  {
    match j
    case Arr(items) => Some(items)
    case Str(s) => Some(seq(|s|, i requires 0 <= i < |s| => Str([s[i]])))
    case Obj(ms) => Some(seq(|ms|, i requires 0 <= i < |ms| => Str(ms[i].key)))
    case _ => None
  }

  /** The values a loop visits, when every one of them is a string. */
  function Names(j: Json): (r: Option<seq<string>>)
    ensures r.Some? <==> Elements(j).Some? && forall i :: 0 <= i < |Elements(j).value| ==> Elements(j).value[i].Str?
    ensures r.Some? ==> |r.value| == |Elements(j).value|
    ensures r.Some? ==> forall i :: 0 <= i < |r.value| ==> Elements(j).value[i] == Str(r.value[i])
  {
    match Elements(j)
    case None => None
    case Some(es) => Strings(Arr(es))
  }

  lemma NamesOfStrArr(xs: seq<string>)
    ensures Names(StrArr(xs)) == Some(xs)
  {
    var j := StrArr(xs);
    assert j == Arr(j.items);
  }

  /** Assigning a key the value it already has changes nothing. */
  lemma SetSame(ms: seq<Member>, k: string, v: Json)
    requires Get(ms, k) == Some(v)
    ensures Set(ms, k, v) == ms
  {
  }

  /** Python's `needle in hay` for a string needle: an element of a list, a
      substring of a string, a key of an object; other values raise. */
  function In(needle: string, hay: Json): (r: Result<bool, Raised>)
    ensures r.Failure? <==> !(hay.Arr? || hay.Str? || hay.Obj?)
    ensures hay.Obj? ==> r == Success(needle in Keys(hay.members))
    ensures hay.Arr? ==> r == Success(Str(needle) in hay.items)
  {
    match hay
    case Arr(items) => Success(Str(needle) in items)
    case Str(s) => Success(Contains(s, needle))
    case Obj(ms) => Success(needle in Keys(ms))
    case _ => Failure(TypeError)
  }
}
