/** Messages held for the operator: each waits for one forward or drop, singly or in bulk, while
    exchanges come and go and the active project may be switched. */
module Interceptor {
  import opened Bytes
  import opened Lookup

  datatype Decision = Forward | Drop

  datatype Kind = RequestKind | ResponseKind

  /** The future a held message awaits. */
  datatype Future = Open | Done(decision: Decision, raw: bytes) | Cancelled

  /** A held message; `doomed` says the coroutine awaiting it has been cancelled. */
  datatype Item = Item(id: nat, kind: Kind, project: string, exchange: nat, raw: bytes, future: Future, doomed: bool)

  /** A call that resolved a message. */
  datatype Success = Success(id: nat, decision: Decision, raw: bytes)

  /** The held messages in order of arrival, how many ids were issued, and the successful calls so far. */
  datatype Board = Board(issued: nat, pending: seq<Item>, log: seq<Success>)

  function Held(b: Board, kind: Kind, project: string, exchange: nat, raw: bytes): Board {
    b.(issued := b.issued + 1, pending := b.pending + [Item(b.issued, kind, project, exchange, raw, Open, false)])
  }

  /** Where an id is held, or how many are held. */
  function Place(items: seq<Item>, id: nat): nat { IndexOf(items, (item: Item) => item.id, id) }

  /** The decision's bytes are the operator's, or the message's own. */
  function BytesFor(item: Item, raw: Option<bytes>): bytes { if raw.Some? then raw.value else item.raw }

  predicate Resolves(b: Board, k: nat) { k < |b.pending| && b.pending[k].future == Open }

  /** `_resolve` on the message at a place: nothing happens to one already decided. */
  function ResolvedAt(b: Board, k: nat, decision: Decision, raw: Option<bytes>): Board {
    if !Resolves(b, k) then b
    else
      var item := b.pending[k];
      b.(pending := b.pending[k := item.(future := Done(decision, BytesFor(item, raw)))],
         log := b.log + [Success(item.id, decision, BytesFor(item, raw))])
  }

  function Called(b: Board, id: nat, decision: Decision, raw: Option<bytes>): Board {
    ResolvedAt(b, Place(b.pending, id), decision, raw)
  }

  /** The first `n` messages, each resolved in turn. */
  function CalledAll(b: Board, n: nat, decision: Decision): Board {
    if n == 0 then b else ResolvedAt(CalledAll(b, n - 1, decision), n - 1, decision, None)
  }

  /** Cancelling the awaiting task cancels the future, unless it has been decided already. */
  function CancelledAt(b: Board, k: nat): Board {
    if k >= |b.pending| then b
    else
      var item := b.pending[k];
      b.(pending := b.pending[k := item.(
        doomed := true, future := if item.future == Open then Cancelled else item.future)])
  }

  function RemovedAt(b: Board, k: nat): Board {
    if k >= |b.pending| then b else b.(pending := b.pending[..k] + b.pending[k + 1..])
  }

  /** The interceptor: its table of held messages, and the history of successful calls. */
  class Interceptor {
    var pending: seq<Item>
    var issued: nat
    ghost var log: seq<Success>

    ghost function State(): Board
      reads this
    {
      Board(issued, pending, log)
    }

    constructor ()
      ensures State() == Board(0, [], [])
    {
      pending, issued, log := [], 0, [];
    }

    method Hold(kind: Kind, project: string, exchange: nat, raw: bytes) returns (id: nat)
      modifies this
      ensures State() == Held(old(State()), kind, project, exchange, raw) && id == old(issued)
    {
      id := issued;
      pending := pending + [Item(id, kind, project, exchange, raw, Open, false)];
      issued := issued + 1;
    }

    method Resolve(k: nat, decision: Decision, raw: Option<bytes>) returns (ok: bool)
      requires k < |pending|
      modifies this
      ensures State() == ResolvedAt(old(State()), k, decision, raw)
      ensures ok == Resolves(old(State()), k)
    {
      if pending[k].future != Open { return false; }
      var used := BytesFor(pending[k], raw);
      log := log + [Success(pending[k].id, decision, used)];
      pending := pending[k := pending[k].(future := Done(decision, used))];
      ok := true;
    }

    method Forward(id: nat, raw: Option<bytes>) returns (ok: bool)
      modifies this
      ensures State() == Called(old(State()), id, Decision.Forward, raw)
      ensures ok == (|log| == |old(log)| + 1)
    {
      var k := Place(pending, id);
      if k == |pending| { return false; }
      ok := Resolve(k, Decision.Forward, raw);
    }

    method Drop(id: nat) returns (ok: bool)
      modifies this
      ensures State() == Called(old(State()), id, Decision.Drop, None)
      ensures ok == (|log| == |old(log)| + 1)
    {
      var k := Place(pending, id);
      if k == |pending| { return false; }
      ok := Resolve(k, Decision.Drop, None);
    }

    /** `forward_all` and `drop_all`: the count returned is the messages resolved by this call. */
    method ResolveAll(decision: Decision) returns (count: nat)
      modifies this
      ensures State() == CalledAll(old(State()), |old(pending)|, decision)
      ensures |log| == |old(log)| + count
    {
      count := 0;
      var n := |pending|;
      for k := 0 to n
        invariant |pending| == n && State() == CalledAll(old(State()), k, decision)
        invariant |log| == |old(log)| + count
      {
        var ok := Resolve(k, decision, None);
        if ok { count := count + 1; }
      }
    }

    /** The awaiting task goes on: its message leaves the table, with its decision if there is one. */
    method Release(id: nat) returns (result: Option<(Decision, bytes)>)
      modifies this
      ensures State() == RemovedAt(old(State()), Place(old(pending), id))
      ensures result.Some? <==> Released(old(State()), Place(old(pending), id))
      ensures result.Some? ==> var item := old(pending)[Place(old(pending), id)];
        result.value == (item.future.decision, item.future.raw)
    {
      var k := Place(pending, id);
      result := None;
      if k < |pending| {
        if pending[k].future.Done? && !pending[k].doomed {
          result := Some((pending[k].future.decision, pending[k].future.raw));
        }
        pending := pending[..k] + pending[k + 1..];
      }
    }
  }

  /** The coroutine awaiting a place has a decision to go on with. */
  predicate Released(b: Board, k: nat) { k < |b.pending| && b.pending[k].future.Done? && !b.pending[k].doomed }
}
