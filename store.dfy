/**
 * Queue items, the persisted record they are loaded from, and the sequence
 * operations both versions of the script perform on the in-memory queue.
 */
module Store {

  datatype Option<T> = None | Some(value: T)

  /** One queued message. `id` stands for the generated id string and
      `created` for the creation time stamp; `isDraft` marks an item that
      holds a captured draft (the `{ isDraft: true }` option of enqueue). */
  datatype Item = Item(id: nat, lines: seq<string>, created: int, isDraft: bool)

  /** What JSON.parse returned for the stored string. */
  datatype JsonValue = JArray(items: seq<Item>) | JOther

  /** The stored record under the queue key: absent (or the empty string),
      a string that does not parse, or a parsed value. */
  datatype Stored = Absent | Unparsable | Parsed(value: JsonValue)

  predicate NoDrafts(q: seq<Item>) {
    forall k | 0 <= k < |q| :: !q[k].isDraft
  }

  /** `items.filter((item) => !(item && item.isDraft))` */
  function WithoutDrafts(items: seq<Item>): seq<Item>
    decreases |items|
  {
    if |items| == 0 then []
    else (if items[0].isDraft then [] else [items[0]]) + WithoutDrafts(items[1..])
  }

  /** Filtering keeps exactly the items that are not drafts. */
  lemma {:induction false} WithoutDraftsMembers(items: seq<Item>)
    ensures NoDrafts(WithoutDrafts(items))
    ensures forall it :: it in WithoutDrafts(items) <==> it in items && !it.isDraft
    ensures |WithoutDrafts(items)| <= |items|
    decreases |items|
  {
    if |items| > 0 {
      WithoutDraftsMembers(items[1..]);
      assert items == [items[0]] + items[1..];
      var r := WithoutDrafts(items);
      assert r == (if items[0].isDraft then [] else [items[0]]) + WithoutDrafts(items[1..]);
      forall k | 0 <= k < |r| ensures !r[k].isDraft {
        assert r[k] in r;
      }
    }
  }

  /** Filtering distributes over concatenation, so it keeps the relative
      order of the items it keeps. */
  lemma {:induction false} WithoutDraftsAppend(a: seq<Item>, b: seq<Item>)
    ensures WithoutDrafts(a + b) == WithoutDrafts(a) + WithoutDrafts(b)
    decreases |a|
  {
    if |a| == 0 {
      assert a + b == b;
    } else {
      assert (a + b)[1..] == a[1..] + b;
      WithoutDraftsAppend(a[1..], b);
    }
  }

  /** A queue without drafts is left as it is by the filter. */
  lemma {:induction false} WithoutDraftsNoop(items: seq<Item>)
    requires NoDrafts(items)
    ensures WithoutDrafts(items) == items
    decreases |items|
  {
    if |items| > 0 {
      WithoutDraftsNoop(items[1..]);
      assert items == [items[0]] + items[1..];
    }
  }

  /** loadQueue of script.user.js. */
  function LoadQueue(s: Stored): seq<Item> {
    match s
    case Parsed(JArray(items)) => WithoutDrafts(items)
    case _ => []
  }

  /** A missing, unparsable or non-array record loads as the empty queue; an
      array loads as its non-draft items in their stored order, and an array
      without drafts loads unchanged. */
  lemma LoadQueueSpec(s: Stored)
    ensures !(s.Parsed? && s.value.JArray?) ==> LoadQueue(s) == []
    ensures NoDrafts(LoadQueue(s))
    ensures s.Parsed? && s.value.JArray? ==>
      && (forall it :: it in LoadQueue(s) <==> it in s.value.items && !it.isDraft)
      && (NoDrafts(s.value.items) ==> LoadQueue(s) == s.value.items)
  {
    if s.Parsed? && s.value.JArray? {
      WithoutDraftsMembers(s.value.items);
      if NoDrafts(s.value.items) { WithoutDraftsNoop(s.value.items); }
    }
  }

  /** What the `queue` variable of script.js holds after loadQueue: the parsed
      value is assigned as it is, array or not. */
  datatype LegacyQueue = Items(items: seq<Item>) | NonArray

  /** loadQueue of script.js. */
  function LoadLegacyQueue(s: Stored): LegacyQueue {
    match s
    case Absent => Items([])
    case Unparsable => Items([])
    case Parsed(JArray(items)) => Items(items)
    case Parsed(JOther) => NonArray
  }

  /** The older loader also gives the empty queue for a missing or unparsable
      record, but keeps draft items and does not replace a non-array value;
      on a stored array without drafts the two loaders agree. */
  lemma LoadLegacyQueueSpec(s: Stored)
    ensures (s.Absent? || s.Unparsable?) ==> LoadLegacyQueue(s) == Items([]) && LoadQueue(s) == []
    ensures s.Parsed? && s.value.JArray? ==> LoadLegacyQueue(s) == Items(s.value.items)
    ensures s.Parsed? && s.value.JOther? ==> LoadLegacyQueue(s).NonArray? && LoadQueue(s) == []
    ensures s.Parsed? && s.value.JArray? && NoDrafts(s.value.items) ==>
      LoadLegacyQueue(s) == Items(LoadQueue(s))
  {
    LoadQueueSpec(s);
  }

  /** `q.splice(i, 1)` for an index in range. */
  function RemoveAt(q: seq<Item>, i: nat): seq<Item>
    requires i < |q|
  {
    q[..i] + q[i + 1..]
  }

  /** Removing at an index takes out exactly that element: the ones before it
      keep their place, the ones after it move down by one. */
  lemma RemoveAtSpec(q: seq<Item>, i: nat)
    requires i < |q|
    ensures |RemoveAt(q, i)| == |q| - 1
    ensures forall k | 0 <= k < i :: RemoveAt(q, i)[k] == q[k]
    ensures forall k | i <= k < |q| - 1 :: RemoveAt(q, i)[k] == q[k + 1]
    ensures multiset(RemoveAt(q, i)) + multiset{q[i]} == multiset(q)
  {
    assert q == q[..i] + [q[i]] + q[i + 1..];
  }

  /** Where `q.splice(idx, 1)` starts: a negative index counts back from the
      end and is clamped at 0; an index past the end is clamped to |q|. */
  function SpliceStart(len: nat, idx: int): (start: nat)
    ensures start <= len
  {
    if idx < 0 then (if len + idx < 0 then 0 else len + idx)
    else if idx > len then len else idx
  }

  /** `q.splice(idx, 1)` for any integer index. */
  function SpliceOne(q: seq<Item>, idx: int): seq<Item> {
    var start := SpliceStart(|q|, idx);
    if start < |q| then RemoveAt(q, start) else q
  }

  /** Splicing at an index in range removes that element; at an index at or
      past the end it changes nothing; a negative index removes an element
      counted from the end (the first one when it reaches past the start). */
  lemma SpliceOneSpec(q: seq<Item>, idx: int)
    ensures 0 <= idx < |q| ==> SpliceOne(q, idx) == RemoveAt(q, idx)
    ensures idx >= |q| ==> SpliceOne(q, idx) == q
    ensures idx < 0 && |q| > 0 ==>
      SpliceOne(q, idx) == RemoveAt(q, if |q| + idx < 0 then 0 else |q| + idx)
  {
  }

  /** `q.findIndex((item) => item && item.id === id)` */
  function FindId(q: seq<Item>, id: nat): (r: Option<nat>)
    ensures r.Some? ==> r.value < |q| && q[r.value].id == id
    ensures r.Some? ==> forall k | 0 <= k < r.value :: q[k].id != id
    ensures r.None? ==> forall k | 0 <= k < |q| :: q[k].id != id
    decreases |q|
  {
    if |q| == 0 then None
    else if q[0].id == id then Some(0)
    else match FindId(q[1..], id)
      case None => None
      case Some(i) => Some(i + 1)
  }

  /** At most one item of `q` carries `id`. */
  predicate UniqueId(q: seq<Item>, id: nat) {
    forall j, k | 0 <= j < k < |q| :: q[j].id != id || q[k].id != id
  }

  /** removeQueueItemById: removes the first item with the id, if any. */
  function RemoveId(q: seq<Item>, id: nat): seq<Item> {
    match FindId(q, id)
    case None => q
    case Some(i) => RemoveAt(q, i)
  }

  /** When at most one item carries the id, removing by id leaves no item
      with that id and keeps every other item, in order. */
  lemma RemoveIdSpec(q: seq<Item>, id: nat)
    requires UniqueId(q, id)
    ensures forall k | 0 <= k < |RemoveId(q, id)| :: RemoveId(q, id)[k].id != id
    ensures RemoveId(q, id) == q || exists i | 0 <= i < |q| :: q[i].id == id && RemoveId(q, id) == RemoveAt(q, i)
    ensures forall it :: it in q && it.id != id ==> it in RemoveId(q, id)
  {
    match FindId(q, id)
    case None =>
    case Some(i) =>
      RemoveAtSpec(q, i);
      var r := RemoveAt(q, i);
      forall it | it in q && it.id != id ensures it in r {
        var k :| 0 <= k < |q| && q[k] == it;
        if k < i { assert r[k] == it; } else { assert k > i; assert r[k - 1] == it; }
      }
  }

  /** Removing by the id of an item appended last, when no earlier item
      carries that id, takes exactly that item off the back. */
  lemma RemoveIdLast(q: seq<Item>, it: Item)
    requires forall k | 0 <= k < |q| :: q[k].id != it.id
    ensures RemoveId(q + [it], it.id) == q
  {
    var r := q + [it];
    assert r[|q|].id == it.id;
    assert forall k | 0 <= k < |q| :: r[k] == q[k];
    assert FindId(r, it.id) == Some(|q|);
    assert r[..|q|] == q;
  }

  /** A bound strictly above every id in the queue: the first fresh id. */
  function IdBound(q: seq<Item>): (b: nat)
    ensures forall k | 0 <= k < |q| :: q[k].id < b
    decreases |q|
  {
    if |q| == 0 then 0
    else
      var rest := IdBound(q[1..]);
      if q[0].id + 1 > rest then q[0].id + 1 else rest
  }
}
