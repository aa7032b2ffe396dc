/** Rebasing a client's operations against operations the server already
    holds.  Timestamps are compared as text, the way JavaScript compares
    two strings with `>`. */
module Transform {
  import opened Results
  import opened CampOperations

  /** `a < b` on strings: lexicographic order of the characters. */
  predicate TextBefore(a: string, b: string)
    decreases |a|
  {
    if |a| == 0 then |b| > 0
    else if |b| == 0 then false
    else if a[0] != b[0] then a[0] < b[0]
    else TextBefore(a[1..], b[1..])
  }

  /** `a > b` on strings. */
  predicate Later(a: string, b: string) {
    TextBefore(b, a)
  }

  /** No timestamp is later than itself, and of two timestamps at most one is
      later than the other: at most one side of a pair absorbs the other. */
  lemma {:induction false} LaterIsAsymmetric(a: string, b: string)
    ensures !(Later(a, b) && Later(b, a))
    ensures !Later(a, a)
    decreases |a|
  {
    if |a| > 0 && |b| > 0 && a[0] == b[0] {
      LaterIsAsymmetric(a[1..], b[1..]);
    }
    if |a| > 0 {
      LaterIsAsymmetric(a[1..], a[1..]);
    }
  }

  /** Two distinct timestamps are always ordered one way or the other. */
  lemma {:induction false} LaterIsTotal(a: string, b: string)
    ensures a == b || Later(a, b) || Later(b, a)
    decreases |a|
  {
    if |a| > 0 && |b| > 0 && a[0] == b[0] {
      LaterIsTotal(a[1..], b[1..]);
      if a[1..] == b[1..] {
        assert a == [a[0]] + a[1..] && b == [b[0]] + b[1..];
      }
    }
  }

  /** The client ids that are not in the server's ids, in client order. */
  function Subtract(ids: seq<string>, remove: seq<string>): (r: seq<string>)
    ensures |r| <= |ids|
    ensures forall x :: x in r <==> x in ids && x !in remove
    ensures forall x :: multiset(r)[x] == if x in remove then 0 else multiset(ids)[x]
  {
    if |ids| == 0 then []
    else
      var rest := Subtract(ids[1..], remove);
      assert forall x :: x in ids <==> x == ids[0] || x in ids[1..];
      assert ids == [ids[0]] + ids[1..];
      if ids[0] in remove then rest else [ids[0]] + rest
  }

  /** `a` is `b` with some elements left out, the rest kept in order. */
  predicate IsSubsequence(a: seq<string>, b: seq<string>)
    decreases |b|
  {
    if |a| == 0 then true
    else if |b| == 0 then false
    else if a[0] == b[0] then IsSubsequence(a[1..], b[1..])
    else IsSubsequence(a, b[1..])
  }

  lemma {:induction false} SubtractKeepsOrder(ids: seq<string>, remove: seq<string>)
    ensures IsSubsequence(Subtract(ids, remove), ids)
    decreases |ids|
  {
    if |ids| > 0 {
      SubtractKeepsOrder(ids[1..], remove);
      var rest := Subtract(ids[1..], remove);
      if ids[0] !in remove {
        assert ([ids[0]] + rest)[1..] == rest;
      }
    }
  }

  /** Nothing is removed exactly when no client id is among the server's ids. */
  lemma {:induction false} SubtractKeepsAll(ids: seq<string>, remove: seq<string>)
    ensures Subtract(ids, remove) == ids <==> forall k :: 0 <= k < |ids| ==> ids[k] !in remove
    ensures |Subtract(ids, remove)| == |ids| <==> Subtract(ids, remove) == ids
    decreases |ids|
  {
    if |ids| > 0 {
      SubtractKeepsAll(ids[1..], remove);
      assert forall k :: 1 <= k < |ids| ==> ids[k] == ids[1..][k - 1];
      if ids[0] !in remove {
        assert ids == [ids[0]] + ids[1..];
      }
    }
  }

  /** When every client id is among the server's ids, none survives. */
  lemma {:induction false} SubtractAll(ids: seq<string>, remove: seq<string>)
    requires forall k :: 0 <= k < |ids| ==> ids[k] in remove
    ensures Subtract(ids, remove) == []
    decreases |ids|
  {
    if |ids| > 0 {
      SubtractAll(ids[1..], remove);
    }
  }

  /** Rebases one item-change client op against an item-change server op of
      the same type: the server's ids are taken out of the client's. */
  function TransformListOp(client: CampOperation, server: CampOperation): (r: (CampOperation, CampOperation))
    requires client.IsItemChange() && server.IsItemChange()
    ensures r.1 == server
    ensures client.listId != server.listId ==> r.0 == client
  {
    if client.listId != server.listId then (client, server)
    else
      var newItemIds := Subtract(client.itemIds, server.itemIds);
      if |newItemIds| == |client.itemIds| then (client, server)
      else if |newItemIds| == 0 then (Absorb(client), server)
      else (client.(itemIds := newItemIds), server)
  }

  /** What happens to the client op: unchanged exactly when it shares no item id
      with a server op on the same list; absorbed when all its ids are taken;
      otherwise only its ids shrink, to the survivors in client order. */
  lemma TransformListOpOutcome(client: CampOperation, server: CampOperation)
    requires client.IsItemChange() && server.IsItemChange()
    ensures var c := TransformListOp(client, server).0;
      var survivors := Subtract(client.itemIds, server.itemIds);
      && (c == client <==>
            client.listId != server.listId ||
            forall k :: 0 <= k < |client.itemIds| ==> client.itemIds[k] !in server.itemIds)
      && (client.listId == server.listId && |survivors| == 0 && |client.itemIds| > 0 ==> c == Absorb(client))
      && (c != client && !c.Identity? ==>
            c == client.(itemIds := survivors) && 0 < |survivors| < |client.itemIds|)
      && (forall x :: x in survivors <==> x in client.itemIds && x !in server.itemIds)
      && IsSubsequence(survivors, client.itemIds)
  {
    SubtractKeepsAll(client.itemIds, server.itemIds);
    SubtractKeepsOrder(client.itemIds, server.itemIds);
  }

  /** Rebases one client op against one server op; the pair that comes back is
      (new client op, new server op). */
  function TransformOp(client: CampOperation, server: CampOperation): (r: Result<(CampOperation, CampOperation)>)
    ensures Later(client.timestamp, server.timestamp) ==> r == Ok((client, Absorb(server)))
    ensures !Later(client.timestamp, server.timestamp) && TypeOf(client) != TypeOf(server) ==> r == Ok((client, server))
    ensures r.Err? <==> !Later(client.timestamp, server.timestamp) && TypeOf(client) == TypeOf(server)
                        && (client.Identity? || client.CreateCamp?)
    ensures r.Err? ==> r.failure == IllegalClientOpType
    ensures r.Ok? && !Later(client.timestamp, server.timestamp) ==> r.value.1 == server
    ensures (&& !Later(client.timestamp, server.timestamp) && TypeOf(client) == TypeOf(server)
             && (client.CreateCampList? || client.CreateCampItem?))
            ==> r == Ok((client, server))
    ensures (&& !Later(client.timestamp, server.timestamp) && TypeOf(client) == TypeOf(server)
             && client.IsItemChange())
            ==> server.IsItemChange() && r == Ok(TransformListOp(client, server))
  {
    if Later(client.timestamp, server.timestamp) then Ok((client, Absorb(server)))
    else if TypeOf(client) != TypeOf(server) then Ok((client, server))
    else
      match client
      case CreateCampList(_, _, _, _) => Ok((client, server))
      case CreateCampItem(_, _, _, _, _) => Ok((client, server))
      case ChangeCampItemState(_, _, _, _, _) => Ok(TransformListOp(client, server))
      case ChangeCampItemDeleted(_, _, _, _, _) => Ok(TransformListOp(client, server))
      case _ => Err(IllegalClientOpType)
  }

  /** `after` is `before` rebased: the same op absorbed, or the same item-change
      op on the same list with a proper subset of its ids, in order. */
  predicate Reduces(after: CampOperation, before: CampOperation) {
    || after == Absorb(before)
    || (&& before.IsItemChange()
        && after.IsItemChange()
        && after == before.(itemIds := after.itemIds)
        && IsSubsequence(after.itemIds, before.itemIds)
        && 0 < |after.itemIds| < |before.itemIds|)
  }

  /** A client op only ever comes back unchanged or reduced. */
  lemma TransformOpReduces(client: CampOperation, server: CampOperation)
    requires TransformOp(client, server).Ok?
    ensures var c := TransformOp(client, server).value.0;
      c == client || Reduces(c, client)
  {
    if !Later(client.timestamp, server.timestamp) && TypeOf(client) == TypeOf(server) && client.IsItemChange() {
      TransformListOpOutcome(client, server);
    }
  }

  /** Two identical item-change ops, the server's no earlier than the client's:
      the client op is fully absorbed. */
  lemma IdenticalOpIsAbsorbed(op: CampOperation)
    requires op.IsItemChange() && |op.itemIds| > 0
    ensures TransformOp(op, op) == Ok((Absorb(op), op))
  {
    LaterIsAsymmetric(op.timestamp, op.timestamp);
    TransformListOpOutcome(op, op);
    SubtractAll(op.itemIds, op.itemIds);
  }

  /** Ops whose item ids do not meet pass through a rebase untouched. */
  lemma DisjointOpsPassThrough(client: CampOperation, server: CampOperation)
    requires client.IsItemChange() && server.IsItemChange()
    requires forall k :: 0 <= k < |client.itemIds| ==> client.itemIds[k] !in server.itemIds
    ensures TransformOp(client, server).Ok? && TransformOp(client, server).value.0 == client
  {
    TransformListOpOutcome(client, server);
  }

  // ---------------------------------------------------------------------------
  // transformOps over a JavaScript array

  /** `arr[i] = v` on a JavaScript array: past the end the array grows and the
      skipped slots are holes (`None`). */
  function StoreAt(arr: seq<Option<CampOperation>>, i: nat, v: CampOperation): (r: seq<Option<CampOperation>>)
    ensures |r| == if i < |arr| then |arr| else i + 1
    ensures r[i] == Some(v)
    ensures forall j :: 0 <= j < |r| && j != i ==> r[j] == if j < |arr| then arr[j] else None
  {
    if i < |arr| then arr[i := Some(v)]
    else arr + seq(i - |arr|, _ => None) + [Some(v)]
  }

  function AsArray(ops: seq<CampOperation>): (r: seq<Option<CampOperation>>)
    ensures |r| == |ops| && forall k :: 0 <= k < |ops| ==> r[k] == Some(ops[k])
  {
    seq(|ops|, k requires 0 <= k < |ops| => Some(ops[k]))
  }

  /** What slot `i` may hold after rebasing against `base`: the slot of `base`
      (a hole past its end), or a reduced form of the client op with the same
      index. */
  predicate SlotFrom(slot: Option<CampOperation>, i: nat, clientOps: seq<CampOperation>, base: seq<Option<CampOperation>>) {
    || slot == (if i < |base| then base[i] else None)
    || (i < |clientOps| && slot.Some? && Reduces(slot.value, clientOps[i]))
  }

  /** What a slot of the result may hold: the original server op (or a hole),
      or a reduced form of the client op with the same index. */
  predicate SlotAllowed(slot: Option<CampOperation>, i: nat, clientOps: seq<CampOperation>, serverOps: seq<CampOperation>) {
    SlotFrom(slot, i, clientOps, AsArray(serverOps))
  }

  /** Client op `clientOp` passes `serverOp` unchanged. */
  predicate PassesUnchanged(clientOp: CampOperation, serverOp: CampOperation) {
    TransformOp(clientOp, serverOp).Ok? && TransformOp(clientOp, serverOp).value.0 == clientOp
  }

  /** Every client op passes every server op unchanged. */
  predicate NoClientOpChanges(clientOps: seq<CampOperation>, serverOps: seq<CampOperation>) {
    forall i, k :: 0 <= i < |clientOps| && 0 <= k < |serverOps| ==> PassesUnchanged(clientOps[i], serverOps[k])
  }

  function Max(a: nat, b: nat): nat {
    if a < b then b else a
  }

  /** One pass of the inner loop of `transformOps`: `serverOp` is rebased
      against the client ops from `index` on.  A changed client op is stored
      into `arr` at its own index; the pass stops once the server op has been
      absorbed into IDENTITY. */
  function TransformPass(arr: seq<Option<CampOperation>>, clientOps: seq<CampOperation>, serverOp: CampOperation, index: nat)
    : (r: Result<seq<Option<CampOperation>>>)
    requires index <= |clientOps|
    ensures r.Err? ==> r.failure == IllegalClientOpType
    ensures r.Ok? ==> |arr| <= |r.value| <= Max(|arr|, |clientOps|)
    ensures r.Ok? ==> forall i :: 0 <= i < |r.value| ==> SlotFrom(r.value[i], i, clientOps, arr)
    ensures r.Ok? ==> forall i :: 0 <= i < index && i < |r.value| ==> r.value[i] == if i < |arr| then arr[i] else None
    ensures (forall i :: index <= i < |clientOps| ==> PassesUnchanged(clientOps[i], serverOp)) ==> r == Ok(arr)
    decreases |clientOps| - index
  {
    if index == |clientOps| then Ok(arr)
    else
      var clientOp := clientOps[index];
      match TransformOp(clientOp, serverOp)
      case Err(f) => Err(f)
      case Ok((newClientOp, newServerOp)) =>
        TransformOpReduces(clientOp, serverOp);
        var arr' := if newClientOp != clientOp then StoreAt(arr, index, newClientOp) else arr;
        if newServerOp.Identity? then Ok(arr')
        else TransformPass(arr', clientOps, newServerOp, index + 1)
  }

  /** The outer loop of `transformOps`, from server slot `k` to `n`: each pass
      reads its server op from the array as the earlier passes left it. */
  function TransformAll(arr: seq<Option<CampOperation>>, clientOps: seq<CampOperation>, k: nat, n: nat)
    : (r: Result<seq<Option<CampOperation>>>)
    requires k <= n <= |arr|
    requires forall i :: 0 <= i < n ==> arr[i].Some?
    ensures r.Err? ==> r.failure == IllegalClientOpType
    ensures r.Ok? ==> |arr| <= |r.value| <= Max(|arr|, |clientOps|)
    ensures r.Ok? ==> forall i :: 0 <= i < |r.value| ==> SlotFrom(r.value[i], i, clientOps, arr)
    ensures (forall i, j :: 0 <= i < |clientOps| && k <= j < n ==> PassesUnchanged(clientOps[i], arr[j].value)) ==> r == Ok(arr)
    decreases n - k
  {
    if k == n then Ok(arr)
    else
      match TransformPass(arr, clientOps, arr[k].value, 0)
      case Err(f) => Err(f)
      case Ok(arr') =>
        assert forall i :: 0 <= i < n ==> arr'[i].Some? by {
          forall i | 0 <= i < n ensures arr'[i].Some? {
            assert SlotFrom(arr'[i], i, clientOps, arr);
          }
        }
        TransformAll(arr', clientOps, k + 1, n)
  }

  /** One step of a pass. */
  lemma PassStep(arr: seq<Option<CampOperation>>, clientOps: seq<CampOperation>, serverOp: CampOperation, index: nat)
    requires index < |clientOps|
    ensures var t := TransformOp(clientOps[index], serverOp);
      && (t.Err? ==> TransformPass(arr, clientOps, serverOp, index) == Err(t.failure))
      && (t.Ok? ==>
            var arr' := if t.value.0 != clientOps[index] then StoreAt(arr, index, t.value.0) else arr;
            TransformPass(arr, clientOps, serverOp, index) ==
              if t.value.1.Identity? then Ok(arr') else TransformPass(arr', clientOps, t.value.1, index + 1))
  {
  }

  /** One step of the fold: a failed pass fails the whole walk. */
  lemma AllStep(arr: seq<Option<CampOperation>>, clientOps: seq<CampOperation>, k: nat, n: nat)
    requires k < n <= |arr|
    requires forall i :: 0 <= i < n ==> arr[i].Some?
    ensures var p := TransformPass(arr, clientOps, arr[k].value, 0);
      && (p.Err? ==> TransformAll(arr, clientOps, k, n) == Err(p.failure))
      && (p.Ok? ==> |p.value| >= n && (forall i :: 0 <= i < n ==> p.value[i].Some?)
                    && TransformAll(arr, clientOps, k, n) == TransformAll(p.value, clientOps, k + 1, n))
  {
    var p := TransformPass(arr, clientOps, arr[k].value, 0);
    if p.Ok? {
      forall i | 0 <= i < n ensures p.value[i].Some? {
        assert SlotFrom(p.value[i], i, clientOps, arr);
      }
    }
  }

  /** The server op a pass holds when it reaches client slot `i`, having
      started at `index` with `serverOp`; `None` when it stopped earlier. */
  ghost function ServerOpAt(clientOps: seq<CampOperation>, serverOp: CampOperation, index: nat, i: nat): Option<CampOperation>
    requires index <= i <= |clientOps|
    decreases i - index
  {
    if i == index then Some(serverOp)
    else
      match TransformOp(clientOps[index], serverOp)
      case Err(_) => None
      case Ok((_, newServerOp)) =>
        if newServerOp.Identity? then None else ServerOpAt(clientOps, newServerOp, index + 1, i)
  }

  /** A client op that the pass reaches and changes ends up in its slot. */
  lemma {:induction false} PassWritesChangedOp(arr: seq<Option<CampOperation>>, clientOps: seq<CampOperation>,
                                              serverOp: CampOperation, index: nat, i: nat, s: CampOperation)
    requires index <= i < |clientOps| && ServerOpAt(clientOps, serverOp, index, i) == Some(s)
    requires TransformOp(clientOps[i], s).Ok? && TransformOp(clientOps[i], s).value.0 != clientOps[i]
    ensures var r := TransformPass(arr, clientOps, serverOp, index);
      r.Ok? ==> i < |r.value| && r.value[i] == Some(TransformOp(clientOps[i], s).value.0)
    decreases i - index
  {
    if i > index {
      var t := TransformOp(clientOps[index], serverOp);
      var arr' := if t.value.0 != clientOps[index] then StoreAt(arr, index, t.value.0) else arr;
      PassStep(arr, clientOps, serverOp, index);
      PassWritesChangedOp(arr', clientOps, t.value.1, index + 1, i, s);
    }
  }

  /** No slot after `i` differs from `arr`, and none lies past its end. */
  predicate UntouchedAfter(r: seq<Option<CampOperation>>, arr: seq<Option<CampOperation>>, i: nat) {
    && (|r| <= i + 1 || |r| <= |arr|)
    && forall j :: i < j < |r| ==> r[j] == arr[j]
  }

  lemma UntouchedAfterStore(r: seq<Option<CampOperation>>, arr: seq<Option<CampOperation>>, index: nat, v: CampOperation, i: nat)
    requires index <= i && UntouchedAfter(r, StoreAt(arr, index, v), i)
    ensures UntouchedAfter(r, arr, i)
  {
    var stored := StoreAt(arr, index, v);
    forall j | i < j < |r| ensures r[j] == arr[j] {
      assert r[j] == stored[j] && j != index;
    }
  }

  /** Once the server op is absorbed at slot `i`, the pass is over: it
      succeeds, and no slot after `i` is written. */
  lemma {:induction false} PassStopsAtAbsorption(arr: seq<Option<CampOperation>>, clientOps: seq<CampOperation>,
                                                serverOp: CampOperation, index: nat, i: nat, s: CampOperation)
    requires index <= i < |clientOps| && ServerOpAt(clientOps, serverOp, index, i) == Some(s)
    requires TransformOp(clientOps[i], s).Ok? && TransformOp(clientOps[i], s).value.1.Identity?
    ensures var r := TransformPass(arr, clientOps, serverOp, index);
      r.Ok? && UntouchedAfter(r.value, arr, i)
    decreases i - index
  {
    var t := TransformOp(clientOps[index], serverOp);
    var changed := t.value.0 != clientOps[index];
    var arr' := if changed then StoreAt(arr, index, t.value.0) else arr;
    PassStep(arr, clientOps, serverOp, index);
    if i > index {
      assert !t.value.1.Identity? && ServerOpAt(clientOps, t.value.1, index + 1, i) == Some(s);
      PassStopsAtAbsorption(arr', clientOps, t.value.1, index + 1, i, s);
      var r' := TransformPass(arr', clientOps, t.value.1, index + 1);
      assert TransformPass(arr, clientOps, serverOp, index) == r';
      if changed {
        UntouchedAfterStore(r'.value, arr, index, t.value.0, i);
      }
    } else {
      assert s == serverOp && t.value.1.Identity?;
      assert TransformPass(arr, clientOps, serverOp, index) == Ok(arr');
    }
  }

  /** The fold over a whole server array, in terms of the server ops it was
      built from. */
  lemma TransformAllOnServerOps(clientOps: seq<CampOperation>, serverOps: seq<CampOperation>)
    ensures var r := TransformAll(AsArray(serverOps), clientOps, 0, |serverOps|);
      && (r.Ok? ==> |serverOps| <= |r.value| <= if |clientOps| > |serverOps| then |clientOps| else |serverOps|)
      && (r.Ok? ==> forall i :: 0 <= i < |r.value| ==> SlotAllowed(r.value[i], i, clientOps, serverOps))
      && (r.Ok? ==> forall i :: 0 <= i < |serverOps| ==> r.value[i].Some?)
      && (r.Err? ==> r.failure == IllegalClientOpType)
      && (NoClientOpChanges(clientOps, serverOps) ==> r == Ok(AsArray(serverOps)))
  {
    var arr0 := AsArray(serverOps);
    var r := TransformAll(arr0, clientOps, 0, |serverOps|);
    if r.Ok? {
      forall i | 0 <= i < |serverOps| ensures r.value[i].Some? {
        assert SlotFrom(r.value[i], i, clientOps, arr0);
      }
    }
  }

  /** The inner loop of `transformOps`: one server op walked over the client
      ops, storing each changed client op into `arr` at its own index, until
      the server op is absorbed into IDENTITY. */
  method TransformPassLoop(arr: seq<Option<CampOperation>>, clientOps: seq<CampOperation>, serverOp: CampOperation)
    returns (r: Result<seq<Option<CampOperation>>>)
    ensures r == TransformPass(arr, clientOps, serverOp, 0)
  {
    var a := arr;
    var s := serverOp;
    var index := 0;
    while index < |clientOps|
      invariant 0 <= index <= |clientOps|
      invariant TransformPass(a, clientOps, s, index) == TransformPass(arr, clientOps, serverOp, 0)
    {
      var clientOp := clientOps[index];
      var t := TransformOp(clientOp, s);
      PassStep(a, clientOps, s, index);
      if t.Err? {
        return Err(t.failure);
      }
      var (newClientOp, newServerOp) := t.value;
      if newClientOp != clientOp {
        a := StoreAt(a, index, newClientOp);
      }
      if newServerOp.Identity? {
        break;
      }
      s := newServerOp;
      index := index + 1;
    }
    return Ok(a);
  }

  /** The loop of `transformOps`.  It never changes `clientOps` (a value here);
      each changed client op is written into the SERVER array at the client op's
      index, and later server ops are read from that same array. */
  method TransformOps(clientOps: seq<CampOperation>, serverOps: seq<CampOperation>)
    returns (r: Result<seq<Option<CampOperation>>>)
    ensures r == TransformAll(AsArray(serverOps), clientOps, 0, |serverOps|)
    ensures r.Ok? ==> |serverOps| <= |r.value| <= if |clientOps| > |serverOps| then |clientOps| else |serverOps|
    ensures r.Ok? ==> forall i :: 0 <= i < |r.value| ==> SlotAllowed(r.value[i], i, clientOps, serverOps)
    ensures r.Ok? ==> forall i :: 0 <= i < |serverOps| ==> r.value[i].Some?
    ensures r.Err? ==> r.failure == IllegalClientOpType
    ensures NoClientOpChanges(clientOps, serverOps) ==> r == Ok(AsArray(serverOps))
  {
    TransformAllOnServerOps(clientOps, serverOps);
    var arr0 := AsArray(serverOps);
    var n := |serverOps|;
    var arr := arr0;
    var k := 0;
    while k < n
      invariant 0 <= k <= n <= |arr|
      invariant forall i :: 0 <= i < n ==> arr[i].Some?
      invariant TransformAll(arr, clientOps, k, n) == TransformAll(arr0, clientOps, 0, n)
    {
      AllStep(arr, clientOps, k, n);
      var pass := TransformPassLoop(arr, clientOps, arr[k].value);
      if pass.Err? {
        return Err(pass.failure);
      }
      arr := pass.value;
      k := k + 1;
    }
    return Ok(arr);
  }
}
