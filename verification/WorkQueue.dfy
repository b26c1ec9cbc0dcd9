/** The deduplicating work queue as one thread sees it: slices over shared backing arrays,
    the package-wide claim table, and batches handed to consumers. */
module WorkQueue {
  import opened Positional
  import opened Batching

  /** What one BatchDequeue removes and what it leaves; an error removes nothing. */
  function TakeBatch<T>(slots: seq<T>, size: int): Option<(seq<T>, seq<T>)> {
    if size <= 0 || slots == [] then None
    else if |slots| > size then Some((slots[..size], slots[size..]))
    else Some((slots, []))
  }

  /** What one Dequeue removes and what it leaves. */
  function TakeOne<T>(slots: seq<T>): Option<(T, seq<T>)> {
    if slots == [] then None else Some((slots[0], slots[1..]))
  }

  function TakeOnes<T>(slots: seq<T>, n: nat): (seq<T>, seq<T>) {
    match TakeOne(slots)
    case Some((x, rest)) => if n == 0 then ([], slots) else ([x] + TakeOnes(rest, n - 1).0, TakeOnes(rest, n - 1).1)
    case None => ([], slots)
  }

  /** A batch is exactly what as many single removals would have produced. */
  lemma {:induction false} BatchIsRepeatedDequeue<T>(slots: seq<T>, size: nat)
    requires size > 0 && slots != []
    ensures TakeBatch(slots, size) == Some(TakeOnes(slots, size))
    ensures |TakeOnes(slots, size).0| == if |slots| < size then |slots| else size
    ensures TakeOnes(slots, size).0 + TakeOnes(slots, size).1 == slots
  {
    OnesArePrefix(slots, size);
    var k := if |slots| < size then |slots| else size;
    assert slots[..|slots|] == slots && slots[|slots|..] == [];
  }

  lemma {:induction false} OnesArePrefix<T>(slots: seq<T>, n: nat)
    ensures var k := if |slots| < n then |slots| else n;
            TakeOnes(slots, n) == (slots[..k], slots[k..])
  {
    if slots == [] || n == 0 {
    } else {
      OnesArePrefix(slots[1..], n - 1);
      var k := if |slots| < n then |slots| else n;
      assert slots[..k] == [slots[0]] + slots[1..][..k - 1];
    }
  }

  /** The batches of a drain loop that meets no new arrivals. */
  function Batches<T>(slots: seq<T>, size: int): seq<seq<T>>
    decreases |slots|
  {
    match TakeBatch(slots, size)
    case Some((b, rest)) => [b] + Batches(rest, size)
    case None => []
  }

  /** The drain loop hands out everything, in order, in ceil(len / size) batches. */
  lemma {:induction false} DrainIsComplete<T>(slots: seq<T>, size: nat)
    requires size > 0
    ensures Flatten(Batches(slots, size)) == slots
    ensures |Batches(slots, size)| == (|slots| + size - 1) / size
    decreases |slots|
  {
    if slots == [] {
      CeilSmall(0, size);
    } else {
      var rest := TakeBatch(slots, size).value.1;
      DrainIsComplete(rest, size);
      if |slots| > size {
        CeilStep(|rest|, size);
      } else {
        CeilSmall(0, size);
        CeilSmall(|slots|, size);
      }
    }
  }

  lemma CeilSmall(n: nat, size: nat)
    requires size > 0 && n <= size
    ensures (n + size - 1) / size == if n == 0 then 0 else 1
  {
    if n == 0 {
      DivModUnique(0, size - 1, size);
    } else {
      DivModUnique(1, n - 1, size);
    }
  }

  lemma CeilStep(n: nat, size: nat)
    requires size > 0
    ensures (n + size + size - 1) / size == (n + size - 1) / size + 1
  {
    var q, r := (n + size - 1) / size, (n + size - 1) % size;
    DivModParts(n + size - 1, size);
    assert (q + 1) * size == q * size + size;
    DivModUnique(q + 1, r, size);
  }

  /** The items of a batch that win their claim: first occurrences not claimed before. */
  function Admitted<T(==)>(claims: set<T>, items: seq<T>): seq<T>
    decreases items
  {
    if items == [] then []
    else if items[0] in claims then Admitted(claims, items[1..])
    else [items[0]] + Admitted(claims + {items[0]}, items[1..])
  }

  lemma AdmitNext<T>(slots: seq<T>, claims: set<T>, items: seq<T>)
    requires items != []
    ensures var x := items[0];
            slots + Admitted(claims, items)
            == (if x in claims then slots else slots + [x]) + Admitted(claims + {x}, items[1..])
  {
    if items[0] in claims {
      assert claims + {items[0]} == claims;
    }
  }

  /** Every unclaimed item is admitted exactly once, and nothing else is. */
  lemma {:induction false} AdmittedOnce<T>(claims: set<T>, items: seq<T>)
    ensures forall x :: x in Admitted(claims, items) <==> x in items && x !in claims
    ensures forall i, j :: 0 <= i < j < |Admitted(claims, items)| ==>
              Admitted(claims, items)[i] != Admitted(claims, items)[j]
    decreases items
  {
    if items == [] {
    } else {
      var x := items[0];
      assert items == [x] + items[1..];
      if x in claims {
        AdmittedOnce(claims, items[1..]);
      } else {
        AdmittedOnce(claims + {x}, items[1..]);
      }
    }
  }

  /** The admitted items come in the order offered. */
  lemma {:induction false} AdmittedInOrder<T>(claims: set<T>, first: seq<T>, later: seq<T>)
    ensures Admitted(claims, first + later) == Admitted(claims, first) + Admitted(claims + Elements(first), later)
    decreases first
  {
    if first == [] {
      assert first + later == later && claims + Elements(first) == claims;
    } else {
      var x := first[0];
      assert (first + later)[1..] == first[1..] + later;
      assert first == [x] + first[1..];
      if x in claims {
        AdmittedInOrder(claims, first[1..], later);
        assert claims + Elements(first) == claims + Elements(first[1..]);
      } else {
        AdmittedInOrder(claims + {x}, first[1..], later);
        assert claims + {x} + Elements(first[1..]) == claims + Elements(first);
      }
    }
  }

  /** The package-wide claim table. */
  class SignInLocks<T(==)> {
    var keys: set<T>

    method LoadOrStore(item: T) returns (loaded: bool)
      modifies this
      ensures loaded <==> item in old(keys)
      ensures keys == old(keys) + {item}
    {
      loaded := item in keys;
      keys := keys + {item};
    }

    method Delete(item: T)
      modifies this
      ensures keys == old(keys) - {item}
    {
      keys := keys - {item};
    }
  }

  /** A slice: a window of a backing array whose capacity reaches to the array's end. */
  datatype Slice<T> = Slice(buf: array<T>, start: nat, len: nat) {
    ghost predicate InBounds() {
      start + len <= buf.Length
    }
    ghost function Items(): seq<T>
      requires InBounds()
      reads buf
    {
      buf[start..start + len]
    }
  }

  /** append: in place while capacity lasts, otherwise into a larger fresh array. */
  method Append<T(0)>(slots: Slice<T>, item: T, growth: nat) returns (longer: Slice<T>)
    requires slots.InBounds()
    modifies slots.buf
    ensures longer.InBounds() && longer.Items() == old(slots.Items()) + [item]
    ensures longer.buf == slots.buf || fresh(longer.buf)
  {
    if slots.start + slots.len < slots.buf.Length {
      slots.buf[slots.start + slots.len] := item;
      longer := slots.(len := slots.len + 1);
    } else {
      var bigger := new T[slots.len + 1 + growth];
      forall i | 0 <= i < slots.len {
        bigger[i] := slots.buf[slots.start + i];
      }
      bigger[slots.len] := item;
      longer := Slice(bigger, 0, slots.len + 1);
    }
  }

  class RichQueue<T(0,==)> {
    var slots: Slice<T>
    var notify: bool
    const locks: SignInLocks<T>
    /** Backing arrays of batches that were handed to a consumer. */
    ghost var handedOut: set<array<T>>

    ghost predicate Valid()
      reads this
    {
      slots.InBounds() && slots.buf !in handedOut
    }

    ghost function Contents(): seq<T>
      requires Valid()
      reads this, slots.buf
    {
      slots.Items()
    }

    constructor (locks: SignInLocks<T>)
      ensures Valid() && Contents() == [] && !notify && this.locks == locks && handedOut == {}
      ensures fresh(slots.buf)
    {
      var none := new T[0];
      slots := Slice(none, 0, 0);
      notify := false;
      this.locks := locks;
      handedOut := {};
    }

    method Enqueue(item: T, growth: nat)
      requires Valid()
      modifies this`slots, this`notify, slots.buf, locks
      ensures Valid() && (slots.buf == old(slots.buf) || fresh(slots.buf))
      ensures locks.keys == old(locks.keys) + {item}
      ensures Contents() == old(Contents()) + Admitted(old(locks.keys), [item])
      ensures notify == (old(notify) || item !in old(locks.keys))
    {
      var loaded := locks.LoadOrStore(item);
      assert Admitted(old(locks.keys), [item]) == if item in old(locks.keys) then [] else [item];
      if loaded {
        return;
      }
      slots := Append(slots, item, growth);
      notify := true;
    }

    method BatchEnqueue(items: seq<T>, growth: nat)
      requires Valid()
      modifies this`slots, this`notify, slots.buf, locks
      ensures Valid() && (slots.buf == old(slots.buf) || fresh(slots.buf))
      ensures locks.keys == old(locks.keys) + set x | x in items
      ensures Contents() == old(Contents()) + Admitted(old(locks.keys), items)
      ensures notify
    {
      var i := 0;
      assert items[0..] == items;
      ghost var goal := Contents() + Admitted(locks.keys, items);
      while i < |items|
        invariant 0 <= i <= |items|
        invariant Valid() && (slots.buf == old(slots.buf) || fresh(slots.buf))
        invariant locks.keys == old(locks.keys) + set x | x in items[..i]
        invariant Contents() + Admitted(locks.keys, items[i..]) == goal
      {
        assert items[..i + 1] == items[..i] + [items[i]];
        AdmitNext(Contents(), locks.keys, items[i..]);
        assert items[i..][1..] == items[i + 1..];
        var loaded := locks.LoadOrStore(items[i]);
        if !loaded {
          slots := Append(slots, items[i], growth);
        }
        i := i + 1;
      }
      assert items[..i] == items;
      notify := true;
    }

    method Dequeue() returns (r: Option<T>)
      requires Valid()
      modifies this`slots
      ensures Valid() && slots.buf == old(slots.buf)
      ensures match TakeOne(old(Contents()))
              case Some((x, rest)) => r == Some(x) && Contents() == rest
              case None => r == None && Contents() == old(Contents())
    {
      if slots.len == 0 {
        return None;
      }
      r := Some(slots.buf[slots.start]);
      slots := Slice(slots.buf, slots.start + 1, slots.len - 1);
    }

    /** The batch is a fresh copy, or the queue gives its whole backing array away and
        starts over on a new one; either way the batch is storage the queue has let go. */
    method BatchDequeue(size: int) returns (r: Option<Slice<T>>)
      requires Valid()
      modifies this`slots, this`handedOut
      ensures Valid() && (slots.buf == old(slots.buf) || fresh(slots.buf))
      ensures match TakeBatch(old(Contents()), size)
              case Some((b, rest)) => r.Some? && r.value.InBounds() && r.value.Items() == b && Contents() == rest
                                      && handedOut == old(handedOut) + {r.value.buf}
                                      && (r.value.buf == old(slots.buf) || fresh(r.value.buf))
              case None => r == None && Contents() == old(Contents()) && handedOut == old(handedOut)
    {
      if size <= 0 || slots.len == 0 {
        return None;
      }
      if slots.len > size {
        var ret := new T[size];
        forall i | 0 <= i < size {
          ret[i] := slots.buf[slots.start + i];
        }
        r := Some(Slice(ret, 0, size));
        slots := Slice(slots.buf, slots.start + size, slots.len - size);
      } else {
        r := Some(slots);
        var none := new T[0];
        slots := Slice(none, 0, 0);
      }
      handedOut := handedOut + {r.value.buf};
    }
  }

  /** The simple queue: no claims, and every batch is a copy, possibly of nothing. */
  class SlotQueue {
    var slots: Slice<nat>
    var notify: bool

    ghost predicate Valid()
      reads this
    {
      slots.InBounds()
    }

    ghost function Contents(): seq<nat>
      requires Valid()
      reads this, slots.buf
    {
      slots.Items()
    }

    constructor ()
      ensures Valid() && Contents() == [] && !notify && fresh(slots.buf)
    {
      var none := new nat[0];
      slots := Slice(none, 0, 0);
      notify := false;
    }

    method Enqueue(item: nat, growth: nat)
      requires Valid()
      modifies this, slots.buf
      ensures Valid() && Contents() == old(Contents()) + [item] && notify
      ensures slots.buf == old(slots.buf) || fresh(slots.buf)
    {
      slots := Append(slots, item, growth);
      notify := true;
    }

    method Dequeue() returns (r: Option<nat>)
      requires Valid()
      modifies this`slots
      ensures Valid() && slots.buf == old(slots.buf)
      ensures match TakeOne(old(Contents()))
              case Some((x, rest)) => r == Some(x) && Contents() == rest
              case None => r == None && Contents() == old(Contents())
    {
      if slots.len == 0 {
        return None;
      }
      r := Some(slots.buf[slots.start]);
      slots := Slice(slots.buf, slots.start + 1, slots.len - 1);
    }

    /** Like the other queue's batch, except that an empty queue gives an empty batch, and that
        the batch is always new storage. */
    method BatchDequeue(size: int) returns (r: Option<array<nat>>)
      requires Valid()
      modifies this`slots
      ensures Valid() && (slots.buf == old(slots.buf) || fresh(slots.buf))
      ensures size <= 0 ==> r == None && Contents() == old(Contents())
      ensures size > 0 ==> r.Some? && fresh(r.value) && r.value != slots.buf
                           && r.value[..] == TakeOnes(old(Contents()), size).0
                           && Contents() == TakeOnes(old(Contents()), size).1
    {
      if size <= 0 {
        return None;
      }
      ghost var before := Contents();
      OnesArePrefix(before, size);
      assert |before| == slots.len;
      if slots.len > size {
        var ret := new nat[size];
        forall i | 0 <= i < size {
          ret[i] := slots.buf[slots.start + i];
        }
        assert ret[..] == before[..size];
        slots := Slice(slots.buf, slots.start + size, slots.len - size);
        assert Contents() == before[size..];
        return Some(ret);
      }
      var ret := new nat[slots.len];
      forall i | 0 <= i < slots.len {
        ret[i] := slots.buf[slots.start + i];
      }
      assert ret[..] == before[..slots.len];
      assert before[slots.len..] == [];
      var none := new nat[0];
      slots := Slice(none, 0, 0);
      assert Contents() == [];
      return Some(ret);
    }
  }

  datatype Operation<T> = Put(item: T, growth: nat) | PutAll(items: seq<T>, growth: nat) | Take | TakeUpTo(size: int)

  /** Storage separation: whatever is done with the queue afterwards, a batch handed out
      earlier keeps its contents. */
  method Drive<T(0,==)>(q: RichQueue<T>, ops: seq<Operation<T>>)
    requires q.Valid()
    modifies q, q.slots.buf, q.locks
    ensures q.Valid() && old(q.handedOut) <= q.handedOut
    ensures forall a <- old(q.handedOut) :: a[..] == old(a[..])
  {
    ghost var issued := q.handedOut;
    for i := 0 to |ops|
      invariant q.Valid() && issued <= q.handedOut
      invariant q.slots.buf == old(q.slots.buf) || fresh(q.slots.buf)
      invariant forall a <- issued :: a[..] == old(a[..])
    {
      match ops[i]
      case Put(item, growth) => q.Enqueue(item, growth);
      case PutAll(items, growth) => q.BatchEnqueue(items, growth);
      case Take => var _ := q.Dequeue();
      case TakeUpTo(size) => var _ := q.BatchDequeue(size);
    }
  }

  /** One awakening of a consumer, with handlers that end before the next batch: takes the queue's
      items in batches and releases exactly the claims of the items handled. A positive size leaves
      the queue empty; any other size handles nothing. */
  method DrainLoop<T(0,==)>(q: RichQueue<T>, size: int) returns (ghost handled: seq<seq<T>>, count: nat)
    requires q.Valid()
    modifies q, q.locks
    ensures q.Valid() && handled == Batches(old(q.Contents()), size) && count == |handled|
    ensures old(q.Contents()) == Flatten(handled) + q.Contents()
    ensures q.locks.keys == old(q.locks.keys) - Elements(Flatten(handled))
    ensures size > 0 ==> q.Contents() == [] && count == (|old(q.Contents())| + size - 1) / size
    ensures size <= 0 ==> q.Contents() == old(q.Contents()) && count == 0
  {
    ghost var start := q.Contents();
    handled, count := [], 0;
    assert Flatten(handled) + start == start && handled + Batches(start, size) == Batches(start, size);
    while true
      invariant q.Valid() && start == Flatten(handled) + q.Contents()
      invariant handled + Batches(q.Contents(), size) == Batches(start, size) && count == |handled|
      invariant q.locks.keys == old(q.locks.keys) - Elements(Flatten(handled))
      decreases |q.Contents()|
    {
      ghost var before := q.Contents();
      var items := q.BatchDequeue(size);
      if items.None? {
        break;
      }
      ghost var batch := items.value.Items();
      BatchStep(before, size, handled);
      BatchesStep(before, size, handled);
      ReleaseAll(q.locks, items.value);
      handled, count := handled + [batch], count + 1;
    }
    if size > 0 {
      DrainIsComplete(start, size);
    }
  }

  ghost function Elements<T>(s: seq<T>): set<T> {
    set x | x in s
  }

  /** A batch moves from the slots to what was handled. */
  lemma BatchStep<T>(slots: seq<T>, size: int, handled: seq<seq<T>>)
    requires TakeBatch(slots, size).Some?
    ensures var (b, rest) := TakeBatch(slots, size).value;
            Flatten(handled) + slots == Flatten(handled + [b]) + rest && |rest| < |slots|
            && Elements(Flatten(handled + [b])) == Elements(Flatten(handled)) + Elements(b)
  {
    var (b, rest) := TakeBatch(slots, size).value;
    FlattenAppend(handled, b);
    AppendParts(Flatten(handled), b, rest);
    assert slots == b + rest;
  }

  /** The batches still to come are one fewer. */
  lemma BatchesStep<T>(slots: seq<T>, size: int, handled: seq<seq<T>>)
    requires TakeBatch(slots, size).Some?
    ensures var (b, rest) := TakeBatch(slots, size).value;
            handled + Batches(slots, size) == (handled + [b]) + Batches(rest, size)
  {
  }

  lemma AppendParts<T>(done: seq<T>, b: seq<T>, rest: seq<T>)
    ensures done + (b + rest) == (done + b) + rest
    ensures Elements(done + b) == Elements(done) + Elements(b)
  {
  }

  method ReleaseAll<T(==)>(locks: SignInLocks<T>, items: Slice<T>)
    requires items.InBounds()
    modifies locks
    ensures locks.keys == old(locks.keys) - Elements(items.Items())
  {
    for i := 0 to items.len
      invariant locks.keys == old(locks.keys) - Elements(items.Items()[..i])
    {
      assert items.Items()[..i + 1] == items.Items()[..i] + [items.Items()[i]];
      locks.Delete(items.buf[items.start + i]);
    }
    assert items.Items()[..items.len] == items.Items();
  }
}
