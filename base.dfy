/** Vocabulary shared by the three connection-registry copies, the room store and the handlers. */
module Base {

  datatype Option<T> = None | Some(value: T)

  /** A Go `(value, error)` pair: a value, or the error text. */
  datatype Result<T> = Ok(value: T) | Err(error: string)

  /** An inbound envelope: a type tag and a payload that each handler decodes itself. */
  datatype Incoming = Incoming(kind: string, payload: string)

  /** One result of a blocking socket read, after the envelope has been decoded. */
  datatype Frame =
    | Message(message: Incoming)   // a well-formed envelope
    | Malformed(error: string)     // the envelope did not decode; the decoder's error text
    | TransportError               // the socket failed or was closed

  /** What an outbound queue carries: an event, or an error reported to that one client. */
  datatype Outgoing<E> = Event(event: E) | Failure(reason: string)

  /** One call of the registry's leave callback, and whether the registry lock was still held. */
  datatype LeaveCall<C> = LeaveCall(client: C, lockHeld: bool)

  predicate NoDuplicates<T(==)>(s: seq<T>) {
    forall i, j | 0 <= i < j < |s| :: s[i] != s[j]
  }

  /** `order` lists every element of `keys` exactly once: one possible visiting order of a Go map range. */
  predicate IsEnumeration<T(==)>(order: seq<T>, keys: set<T>) {
    && NoDuplicates(order)
    && (forall k | k in order :: k in keys)
    && (forall k | k in keys :: k in order)
  }

  /** The handler registered for a message type, if any: the lookup both registries make in handleMessage. */
  function Lookup<H>(handlers: map<string, H>, kind: string): (r: Option<H>)
    ensures r.Some? <==> kind in handlers
    ensures r.Some? ==> r.value == handlers[kind]
  {
    if kind in handlers then Some(handlers[kind]) else None
  }

  /** The only enumeration of a one-element set. */
  lemma OnlyEnumeration<T>(order: seq<T>, x: T)
    requires IsEnumeration(order, {x})
    ensures order == [x]
  {
    assert |order| < 2 || order[0] != order[1];
    assert x in order;
    forall i | 0 <= i < |order|
      ensures order[i] == x
    {
      assert order[i] in order;
    }
  }

  /** `s` with every occurrence of `x` deleted and the other elements kept in order. */
  function Without<T(==)>(s: seq<T>, x: T): (r: seq<T>)
    ensures forall y | y in r :: y in s && y != x
    ensures forall y | y in s && y != x :: y in r
    ensures |r| <= |s|
    ensures x !in s ==> r == s
    ensures NoDuplicates(s) ==> NoDuplicates(r)
  {
    if s == [] then []
    else if s[0] == x then Without(s[1..], x)
    else
      var rest := Without(s[1..], x);
      assert NoDuplicates(s) ==> s[0] !in s[1..] && NoDuplicates(s[1..]);
      assert forall j | 0 <= j < |rest| :: ([s[0]] + rest)[j + 1] == rest[j];
      [s[0]] + rest
  }

  /**
   * Deleting distributes over concatenation, so the elements that stay
   * keep their relative order.
   */
  lemma {:induction false} WithoutAppend<T>(a: seq<T>, b: seq<T>, x: T)
    ensures Without(a + b, x) == Without(a, x) + Without(b, x)
  {
    if a != [] {
      assert (a + b)[0] == a[0] && (a + b)[1..] == a[1..] + b;
      WithoutAppend(a[1..], b, x);
    } else {
      assert a + b == b;
    }
  }

  /** Deleting from a single element keeps it exactly when it is not the one deleted. */
  lemma WithoutOne<T>(y: T, x: T)
    ensures Without([y], x) == if y == x then [] else [y]
  {
    assert [y][1..] == [];
  }

  /** The keys of `m` in the order a `for k := range m` loop happens to visit them: each key once, in no fixed order. */
  method RangeOrder<K, V>(m: map<K, V>) returns (order: seq<K>)
    ensures IsEnumeration(order, m.Keys)
  {
    order := [];
    var pending := m.Keys;
    while pending != {}
      invariant pending <= m.Keys
      invariant NoDuplicates(order)
      invariant forall k :: k in order <==> k in m.Keys && k !in pending
      decreases |pending|
    {
      var k :| k in pending;
      order := order + [k];
      pending := pending - {k};
    }
  }

  /** The read loops stop at the first transport error: the index of that frame, or |fs| when there is none. */
  function FirstError(fs: seq<Frame>): (n: nat)
    ensures n <= |fs|
    ensures forall j | 0 <= j < n :: !fs[j].TransportError?
    ensures n < |fs| ==> fs[n].TransportError?
  {
    if fs == [] then 0
    else if fs[0].TransportError? then 0
    else 1 + FirstError(fs[1..])
  }

  /** The error reports the read loop enqueues for the malformed frames of `fs`, in order. */
  function Reports<E>(fs: seq<Frame>): seq<Outgoing<E>> {
    if fs == [] then []
    else (if fs[0].Malformed? then [Failure(fs[0].error)] else []) + Reports(fs[1..])
  }

  /** The well-formed envelopes of `fs`, in order: what the read loop hands to dispatch. */
  function Messages(fs: seq<Frame>): seq<Incoming> {
    if fs == [] then []
    else (if fs[0].Message? then [fs[0].message] else []) + Messages(fs[1..])
  }

  lemma {:induction false} ReportsAppend<E>(a: seq<Frame>, b: seq<Frame>)
    ensures Reports<E>(a + b) == Reports<E>(a) + Reports<E>(b)
  {
    if a != [] {
      assert (a + b)[1..] == a[1..] + b;
      ReportsAppend<E>(a[1..], b);
    } else {
      assert a + b == b;
    }
  }

  lemma {:induction false} MessagesAppend(a: seq<Frame>, b: seq<Frame>)
    ensures Messages(a + b) == Messages(a) + Messages(b)
  {
    if a != [] {
      assert (a + b)[1..] == a[1..] + b;
      MessagesAppend(a[1..], b);
    } else {
      assert a + b == b;
    }
  }

  /** A read loop's bookkeeping for one more frame `f` that is not a transport error. */
  lemma StepFrame<E>(fs: seq<Frame>, i: nat)
    requires i < |fs|
    ensures Reports<E>(fs[..i + 1]) == Reports<E>(fs[..i]) + (if fs[i].Malformed? then [Failure(fs[i].error)] else [])
    ensures Messages(fs[..i + 1]) == Messages(fs[..i]) + (if fs[i].Message? then [fs[i].message] else [])
  {
    assert fs[..i + 1] == fs[..i] + [fs[i]];
    ReportsAppend<E>(fs[..i], [fs[i]]);
    MessagesAppend(fs[..i], [fs[i]]);
    assert Reports<E>([fs[i]]) == (if fs[i].Malformed? then [Failure(fs[i].error)] else []) + Reports<E>([]);
    assert Messages([fs[i]]) == (if fs[i].Message? then [fs[i].message] else []) + Messages([]);
  }
}
