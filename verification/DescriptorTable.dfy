/**
 The descriptor table (internal/descriptor/table.go): items under int32 keys, with one bit of a
 64-bit mask per item. It behaves as a map whose Insert takes the least key that is free.
 */
module DescriptorTable {
  import opened Bits

  const WORD: nat := 64
  const TWO_TO_THE_31: nat := 0x8000_0000

  // What the masks and items stand for

  predicate Present(masks: seq<nat>, k: int) {
    0 <= k < WORD * |masks| && Bit(masks[k / WORD], k % WORD)
  }

  function Contents<Item>(masks: seq<nat>, items: seq<Item>): map<int, Item>
    requires |items| == WORD * |masks|
  {
    map k | 0 <= k < |items| && Present(masks, k) :: items[k]
  }

  predicate Words(masks: seq<nat>) {
    forall i :: 0 <= i < |masks| ==> masks[i] < Pow2(WORD)
  }

  lemma SlotOf(i: nat, s: nat)
    requires s < WORD
    ensures (WORD * i + s) / WORD == i && (WORD * i + s) % WORD == s
  {
  }

  /** masks[i] | 1 << s */
  lemma SetPresent(masks: seq<nat>, i: nat, s: nat, x: nat, k: int)
    requires i < |masks| && s < WORD && x == Pow2(s)
    ensures Present(masks[i := Or(masks[i], x)], k) == (k == WORD * i + s || Present(masks, k))
  {
    SlotOf(i, s);
    if 0 <= k < WORD * |masks| {
      OrBit(masks[i], x, k % WORD);
      Pow2Bit(s, k % WORD);
    }
  }

  /** masks[i] & ^(1 << s) */
  lemma ClearPresent(masks: seq<nat>, i: nat, s: nat, x: nat, k: int)
    requires i < |masks| && s < WORD && Pow2(s) < Pow2(WORD) && x == Not(WORD, Pow2(s))
    ensures Present(masks[i := And(masks[i], x)], k) == (k != WORD * i + s && Present(masks, k))
  {
    SlotOf(i, s);
    if 0 <= k < WORD * |masks| {
      AndBit(masks[i], x, k % WORD);
      NotBit(WORD, Pow2(s), k % WORD);
      Pow2Bit(s, k % WORD);
    }
  }

  lemma SetWords(masks: seq<nat>, i: nat, x: nat, w: nat)
    requires Words(masks) && i < |masks| && w == WORD && x < Pow2(w)
    ensures Words(masks[i := Or(masks[i], x)])
  {
    OrBounded(w, masks[i], x);
  }

  lemma ClearWords(masks: seq<nat>, i: nat, x: nat)
    requires Words(masks) && i < |masks|
    ensures Words(masks[i := And(masks[i], x)])
  {
    AndBounded(masks[i], x);
  }

  lemma ContentsStored<Item>(masks: seq<nat>, masks': seq<nat>, items: seq<Item>, i: nat, s: nat, x: nat, item: Item)
    requires |items| == WORD * |masks| && i < |masks| && s < WORD
    requires x == Pow2(s) && masks' == masks[i := Or(masks[i], x)]
    ensures var key := WORD * i + s;
            Contents(masks', items[key := item]) == Contents(masks, items)[key := item]
  {
    forall k ensures Present(masks', k) == (k == WORD * i + s || Present(masks, k)) {
      SetPresent(masks, i, s, x, k);
    }
    OneMore(masks, masks', items, WORD * i + s, item);
  }

  lemma OneMore<Item>(masks: seq<nat>, masks': seq<nat>, items: seq<Item>, key: nat, item: Item)
    requires |items| == WORD * |masks| == WORD * |masks'| && key < |items|
    requires forall k :: Present(masks', k) == (k == key || Present(masks, k))
    ensures Contents(masks', items[key := item]) == Contents(masks, items)[key := item]
  {
  }

  lemma ContentsCleared<Item>(masks: seq<nat>, masks': seq<nat>, items: seq<Item>, i: nat, s: nat, x: nat, zero: Item)
    requires |items| == WORD * |masks| && i < |masks| && s < WORD
    requires Pow2(s) < Pow2(WORD) && x == Not(WORD, Pow2(s)) && masks' == masks[i := And(masks[i], x)]
    ensures var key := WORD * i + s;
            Contents(masks', items[key := zero]) == Contents(masks, items) - {key}
  {
    forall k ensures Present(masks', k) == (k != WORD * i + s && Present(masks, k)) {
      ClearPresent(masks, i, s, x, k);
    }
    OneLess(masks, masks', items, WORD * i + s, zero);
  }

  lemma OneLess<Item>(masks: seq<nat>, masks': seq<nat>, items: seq<Item>, key: nat, zero: Item)
    requires |items| == WORD * |masks| == WORD * |masks'| && key < |items|
    requires forall k :: Present(masks', k) == (k != key && Present(masks, k))
    ensures Contents(masks', items[key := zero]) == Contents(masks, items) - {key}
  {
  }

  lemma GrownPresent(masks: seq<nat>, n: nat, k: int)
    ensures Present(masks + seq(n, _ => 0), k) == Present(masks, k)
  {
    if WORD * |masks| <= k < WORD * (|masks| + n) {
      ZeroBit(k % WORD);
    }
  }

  /** mask & (1 << s) != 0 */
  lemma TestBit(m: nat, s: nat)
    ensures And(m, Pow2(s)) != 0 <==> Bit(m, s)
  {
    AndBit(m, Pow2(s), s);
    Pow2Bit(s, s);
    if And(m, Pow2(s)) != 0 {
      var j := TrailingZeros(And(m, Pow2(s)));
      AndBit(m, Pow2(s), j);
      Pow2Bit(s, j);
    } else {
      ZeroBit(s);
    }
  }

  // Counting

  /** The present keys below `k`. */
  ghost function KeysBelow(masks: seq<nat>, k: nat): set<int> {
    set i | 0 <= i < k && Present(masks, i)
  }

  /** The number of items in the first `n` masks. */
  function Count(masks: seq<nat>, n: nat): nat
    requires n <= |masks|
  {
    if n == 0 then 0 else Count(masks, n - 1) + OnesCount(masks[n - 1])
  }

  lemma KeysBelowNext(masks: seq<nat>, k: nat)
    ensures |KeysBelow(masks, k + 1)| == |KeysBelow(masks, k)| + Digit(Present(masks, k))
  {
    if Present(masks, k) {
      assert KeysBelow(masks, k + 1) == KeysBelow(masks, k) + {k};
    } else {
      assert KeysBelow(masks, k + 1) == KeysBelow(masks, k);
    }
  }

  /** The present keys of one mask. */
  lemma {:induction false} CountInMask(masks: seq<nat>, n: nat, j: nat)
    requires n < |masks| && j <= WORD
    ensures |KeysBelow(masks, WORD * n + j)| == |KeysBelow(masks, WORD * n)| + LowOnes(masks[n], j)
  {
    if j > 0 {
      CountInMask(masks, n, j - 1);
      SlotOf(n, j - 1);
      KeysBelowNext(masks, WORD * n + (j - 1));
    }
  }

  lemma {:induction false} CountBelow(masks: seq<nat>, n: nat, w: nat)
    requires n <= |masks| && Words(masks) && w == WORD
    ensures |KeysBelow(masks, w * n)| == Count(masks, n)
    decreases n
  {
    if n == 0 {
      assert KeysBelow(masks, 0) == {};
    } else {
      CountBelow(masks, n - 1, w);
      CountNext(masks, n - 1, w);
    }
  }

  lemma CountNext(masks: seq<nat>, n: nat, w: nat)
    requires n < |masks| && Words(masks) && w == WORD
    ensures |KeysBelow(masks, w * (n + 1))| == |KeysBelow(masks, w * n)| + OnesCount(masks[n])
  {
    assert w * (n + 1) == WORD * n + w;
    CountInMask(masks, n, w);
    LowOnesAll(masks[n], w);
  }

  lemma {:induction false} KeysBelowGrows(masks: seq<nat>, j: nat, k: nat)
    requires j <= k
    ensures |KeysBelow(masks, j)| <= |KeysBelow(masks, k)|
  {
    if j < k {
      KeysBelowGrows(masks, j, k - 1);
      KeysBelowNext(masks, k - 1);
    }
  }

  /** When all keys below `key` are taken, there are `key` of them. */
  lemma {:induction false} AllBelow(masks: seq<nat>, key: nat)
    requires forall k :: 0 <= k < key ==> Present(masks, k)
    ensures |KeysBelow(masks, key)| == key
  {
    if key == 0 {
      assert KeysBelow(masks, 0) == {};
    } else {
      AllBelow(masks, key - 1);
      KeysBelowNext(masks, key - 1);
    }
  }

  lemma KeysAreBelow<Item>(masks: seq<nat>, items: seq<Item>)
    requires |items| == WORD * |masks|
    ensures |Contents(masks, items)| == |KeysBelow(masks, |items|)|
  {
    assert Contents(masks, items).Keys == KeysBelow(masks, |items|);
  }

  lemma CountIsSize<Item>(masks: seq<nat>, items: seq<Item>)
    requires |items| == WORD * |masks| && Words(masks)
    ensures Count(masks, |masks|) == |Contents(masks, items)|
  {
    CountBelow(masks, |masks|, WORD);
    KeysAreBelow(masks, items);
  }

  // The order of Range

  /** The present keys below `k` with their items, ascending. */
  function Ascending<Item>(masks: seq<nat>, items: seq<Item>, k: nat): seq<(int, Item)>
    requires |items| == WORD * |masks| && k <= |items|
  {
    if k == 0 then []
    else Ascending(masks, items, k - 1) + if Present(masks, k - 1) then [(k - 1, items[k - 1])] else []
  }

  /** `a` is the part of `m` below `k`: each key once, in ascending order, with its item. */
  ghost predicate Lists<Item(!new)>(a: seq<(int, Item)>, m: map<int, Item>, k: int) {
    && (forall i, j :: 0 <= i < j < |a| ==> a[i].0 < a[j].0)
    && (forall i :: 0 <= i < |a| ==> a[i].0 < k && a[i].0 in m && a[i].1 == m[a[i].0])
    && (forall key :: key in m && key < k ==> (key, m[key]) in a)
  }

  lemma ListsNext<Item(!new)>(a: seq<(int, Item)>, m: map<int, Item>, k: int)
    requires Lists(a, m, k)
    ensures k in m ==> Lists(a + [(k, m[k])], m, k + 1)
    ensures k !in m ==> Lists(a, m, k + 1)
  {
    if k in m {
      var b := a + [(k, m[k])];
      assert b[|a|] == (k, m[k]) && forall i :: 0 <= i < |a| ==> b[i] == a[i];
      forall key | key in m && key < k + 1 ensures (key, m[key]) in b {
        if key < k {
          assert (key, m[key]) in a;
        }
      }
    }
  }

  lemma {:induction false} AscendingLists<Item(!new)>(masks: seq<nat>, items: seq<Item>, m: map<int, Item>, k: nat)
    requires |items| == WORD * |masks| && k <= |items| && m == Contents(masks, items)
    ensures Lists(Ascending(masks, items, k), m, k)
  {
    if k > 0 {
      AscendingLists(masks, items, m, k - 1);
      ContentsAt(masks, items, m, k - 1);
      AscendingListsNext(masks, items, m, k - 1);
    }
  }

  lemma ContentsAt<Item>(masks: seq<nat>, items: seq<Item>, m: map<int, Item>, k: nat)
    requires |items| == WORD * |masks| && k < |items| && m == Contents(masks, items)
    ensures (Present(masks, k) <==> k in m) && (k in m ==> m[k] == items[k])
  {
  }

  lemma AscendingListsNext<Item(!new)>(masks: seq<nat>, items: seq<Item>, m: map<int, Item>, k: nat)
    requires |items| == WORD * |masks| && k < |items|
    requires (Present(masks, k) <==> k in m) && (k in m ==> m[k] == items[k])
    requires Lists(Ascending(masks, items, k), m, k)
    ensures Lists(Ascending(masks, items, k + 1), m, k + 1)
  {
    AscendingNext(masks, items, k);
    ListsNext(Ascending(masks, items, k), m, k);
  }

  lemma AscendingNext<Item>(masks: seq<nat>, items: seq<Item>, k: nat)
    requires |items| == WORD * |masks| && k < |items|
    ensures Present(masks, k) ==> Ascending(masks, items, k + 1) == Ascending(masks, items, k) + [(k, items[k])]
    ensures !Present(masks, k) ==> Ascending(masks, items, k + 1) == Ascending(masks, items, k)
  {
  }

  lemma AscendingIsContents<Item(!new)>(masks: seq<nat>, items: seq<Item>)
    requires |items| == WORD * |masks|
    ensures Lists(Ascending(masks, items, |items|), Contents(masks, items), |items|)
  {
    AscendingLists(masks, items, Contents(masks, items), |items|);
  }

  /** The calls that an iteration makes which stops when the callback returns false. */
  function Until<Item>(f: (int, Item) -> bool, all: seq<(int, Item)>): seq<(int, Item)> {
    if all == [] then []
    else if !f(all[0].0, all[0].1) then [all[0]]
    else [all[0]] + Until(f, all[1..])
  }

  predicate AllTrue<Item>(f: (int, Item) -> bool, all: seq<(int, Item)>) {
    forall i :: 0 <= i < |all| ==> f(all[i].0, all[i].1)
  }

  lemma {:induction false} UntilPast<Item>(f: (int, Item) -> bool, done: seq<(int, Item)>, rest: seq<(int, Item)>)
    requires AllTrue(f, done)
    ensures Until(f, done + rest) == done + Until(f, rest)
    decreases |done|
  {
    if done == [] {
      assert done + rest == rest;
    } else {
      assert (done + rest)[1..] == done[1..] + rest;
      UntilPast(f, done[1..], rest);
    }
  }

  lemma {:induction false} AscendingPrefix<Item>(masks: seq<nat>, items: seq<Item>, j: nat, k: nat)
    requires |items| == WORD * |masks| && j <= k <= |items|
    ensures Ascending(masks, items, j) <= Ascending(masks, items, k)
    decreases k
  {
    if j < k {
      AscendingPrefix(masks, items, j, k - 1);
    }
  }

  /** A callback that returns false at key `k`, but not before, is the last one called. */
  lemma StopsAt<Item>(f: (int, Item) -> bool, masks: seq<nat>, items: seq<Item>, k: nat)
    requires |items| == WORD * |masks| && k < |items| && Present(masks, k)
    requires AllTrue(f, Ascending(masks, items, k)) && !f(k, items[k])
    ensures Ranged(f, masks, items, Ascending(masks, items, k + 1))
  {
    var a, all := Ascending(masks, items, k), Ascending(masks, items, |items|);
    AscendingPrefix(masks, items, k + 1, |items|);
    var rest := all[|a|..];
    assert all == a + rest && rest[0] == (k, items[k]);
    UntilPast(f, a, rest);
  }

  /** The calls of Range: all in ascending order, up to the first that returns false. */
  ghost predicate Ranged<Item>(f: (int, Item) -> bool, masks: seq<nat>, items: seq<Item>, calls: seq<(int, Item)>)
    requires |items| == WORD * |masks|
  {
    calls == Until(f, Ascending(masks, items, |items|))
  }

  /** The calls made for the keys below `k`, none of which returned false. */
  ghost predicate RangedTo<Item>(f: (int, Item) -> bool, masks: seq<nat>, items: seq<Item>, k: nat,
                                 calls: seq<(int, Item)>) {
    |items| == WORD * |masks| && k <= |items| && calls == Ascending(masks, items, k) && AllTrue(f, calls)
  }

  /** A mask without bits makes no calls. */
  lemma RangedPastEmpty<Item>(f: (int, Item) -> bool, masks: seq<nat>, items: seq<Item>, i: nat,
                              calls: seq<(int, Item)>)
    requires |items| == WORD * |masks| && i < |masks| && masks[i] == 0 && RangedTo(f, masks, items, WORD * i, calls)
    ensures RangedTo(f, masks, items, WORD * (i + 1), calls)
  {
    EmptyMask(masks, items, i, WORD);
  }

  /** One bit more: no call, a call that goes on, or the last call. */
  lemma RangedNext<Item>(f: (int, Item) -> bool, masks: seq<nat>, items: seq<Item>, i: nat, j: nat,
                         calls: seq<(int, Item)>)
    requires |items| == WORD * |masks| && i < |masks| && j < WORD && RangedTo(f, masks, items, WORD * i + j, calls)
    ensures var key := WORD * i + j;
            var more := calls + [(key, items[key])];
            if !Bit(masks[i], j) then RangedTo(f, masks, items, key + 1, calls)
            else if f(key, items[key]) then RangedTo(f, masks, items, key + 1, more)
            else Ranged(f, masks, items, more)
  {
    SlotOf(i, j);
    AscendingNext(masks, items, WORD * i + j);
    if Bit(masks[i], j) && !f(WORD * i + j, items[WORD * i + j]) {
      StopsAt(f, masks, items, WORD * i + j);
    }
  }

  lemma RangedAll<Item>(f: (int, Item) -> bool, masks: seq<nat>, items: seq<Item>, calls: seq<(int, Item)>)
    requires |items| == WORD * |masks| && RangedTo(f, masks, items, |items|, calls)
    ensures Ranged(f, masks, items, calls)
  {
    UntilPast(f, calls, []);
    assert calls + [] == calls;
  }

  class Table<Item> {
    const zero: Item
    var masks: seq<nat>
    var items: seq<Item>

    ghost predicate Valid()
      reads this
    {
      |items| == WORD * |masks| && Words(masks)
    }

    ghost function Map(): map<int, Item>
      requires Valid()
      reads this
    {
      Contents(masks, items)
    }

    constructor (zero: Item)
      ensures Valid() && Map() == map[] && this.zero == zero
    {
      this.zero, masks, items := zero, [], [];
    }

    method Len() returns (n: nat)
      requires Valid()
      ensures n == |Map()|
    {
      n := 0;
      var i := 0;
      while i < |masks|
        invariant 0 <= i <= |masks| && n == Count(masks, i)
      {
        n := n + OnesCount(masks[i]);
        i := i + 1;
      }
      CountIsSize(masks, items);
    }

    method Grow(n: nat)
      requires Valid()
      modifies this
      ensures Valid() && Map() == old(Map())
      ensures masks == old(masks) + seq(n, _ => 0)
    {
      masks := masks + seq(n, _ => 0);
      items := items + seq(n * WORD, _ => zero);
      forall k ensures Present(masks, k) == Present(old(masks), k) {
        GrownPresent(old(masks), n, k);
      }
    }

    /** Sets the bit of a key and stores the item under it. */
    method Store(index: nat, shift: nat, item: Item)
      requires Valid() && index < |masks| && shift < WORD
      modifies this
      ensures Valid() && Map() == old(Map())[WORD * index + shift := item]
    {
      var key := WORD * index + shift;
      var bit := Pow2(shift);
      Pow2Grows(shift, WORD);
      SetWords(masks, index, bit, WORD);
      items := items[key := item];
      masks := masks[index := Or(masks[index], bit)];
      ContentsStored(old(masks), masks, old(items), index, shift, bit, item);
    }

    /** Puts an item at the lowest free bit of the first mask that has one. */
    method StoreFree(index: nat, shift: nat, item: Item) returns (key: int)
      requires Valid() && index < |masks| && AllFull(masks, index) && LowestFree(masks[index], shift)
      modifies this
      ensures Valid() && Takes(old(Map()), key) && Map() == old(Map())[key := item]
    {
      key := WORD * index + shift;
      LeastFree(masks, items, index, shift);
      Store(index, shift, item);
    }

    /** The scan of Insert from mask `offset` on. */
    method TryInsert(item: Item, offset: nat) returns (key: int, done: bool)
      requires Valid() && offset <= |masks|
      requires AllFull(masks, offset)
      modifies this
      ensures Valid()
      ensures done ==> Takes(old(Map()), key) && Map() == old(Map())[key := item]
      ensures !done ==> unchanged(this) && AllFull(masks, |masks|)
    {
      var index := offset;
      while index < |masks|
        invariant offset <= index <= |masks| && unchanged(this)
        invariant AllFull(masks, index)
      {
        var shift, free := FreeBit(masks[index]);
        if free {
          key := StoreFree(index, shift, item);
          return key, true;
        }
        index := index + 1;
      }
      return 0, false;
    }

    /** Insert: the item goes to the least key that is free. Keys are int32, which do not wrap
        around while there are fewer than 2^31 items. */
    method Insert(item: Item) returns (key: int, ok: bool)
      requires Valid() && |Map()| < TWO_TO_THE_31
      modifies this
      ensures Valid() && ok
      ensures Takes(old(Map()), key) && Map() == old(Map())[key := item]
    {
      var offset := 0;
      var grown := false;
      while true
        invariant Valid() && Map() == old(Map()) && 0 <= offset <= |masks|
        invariant AllFull(masks, offset)
        invariant grown ==> offset < |masks| && !Full(masks[offset])
        decreases !grown
      {
        var done;
        key, done := TryInsert(item, offset);
        if done {
          return key, key >= 0;
        }
        offset := |masks|;
        Grow(1);
        Pow2Grows(0, WORD);
        grown := true;
      }
    }

    /** Lookup: negative and absent keys are not found. */
    method Lookup(key: int) returns (item: Item, found: bool)
      requires Valid()
      ensures found == (key in Map()) && item == if found then Map()[key] else zero
    {
      item, found := zero, false;
      if key < 0 {
        return;
      }
      if key < |items| {
        var index, shift := key / WORD, key % WORD;
        TestBit(masks[index], shift);
        if And(masks[index], Pow2(shift)) != 0 {
          item, found := items[key], true;
        }
      }
    }

    method InsertAt(item: Item, key: int) returns (ok: bool)
      requires Valid()
      modifies this
      ensures Valid() && ok == (key >= 0)
      ensures Map() == if ok then old(Map())[key := item] else old(Map())
    {
      if key < 0 {
        return false;
      }
      var index := key / WORD;
      var diff := index - |masks| + 1;
      if diff > 0 {
        Grow(diff);
      }
      var shift := key % WORD;
      Store(index, shift, item);
      return true;
    }

    /** Clears the bit of a key and the item under it. */
    method Clear(index: nat, shift: nat)
      requires Valid() && index < |masks| && shift < WORD
      modifies this
      ensures Valid() && Map() == old(Map()) - {WORD * index + shift}
    {
      var key := WORD * index + shift;
      Pow2Grows(shift, WORD);
      var others := Not(WORD, Pow2(shift));
      ClearWords(masks, index, others);
      items := items[key := zero];
      masks := masks[index := And(masks[index], others)];
      ContentsCleared(old(masks), masks, old(items), index, shift, others, zero);
    }

    method Delete(key: int)
      requires Valid()
      modifies this
      ensures Valid() && Map() == old(Map()) - {key}
    {
      if key < 0 {
        return;
      }
      var index := key / WORD;
      if index < |masks| {
        var shift := key % WORD;
        TestBit(masks[index], shift);
        if And(masks[index], Pow2(shift)) != 0 {
          Clear(index, shift);
        }
      }
    }

    /** The call of Range for bit `j` of mask `i`, if it is set, after those in `before`. */
    method RangeBit(f: (int, Item) -> bool, i: nat, j: nat, before: seq<(int, Item)>)
        returns (calls: seq<(int, Item)>, stop: bool)
      requires Valid() && i < |masks| && j < WORD && RangedTo(f, masks, items, WORD * i + j, before)
      ensures if stop then Ranged(f, masks, items, calls)
              else RangedTo(f, masks, items, WORD * i + j + 1, calls)
    {
      var mask, key := masks[i], WORD * i + j;
      calls, stop := before, false;
      TestBit(mask, j);
      RangedNext(f, masks, items, i, j, calls);
      if And(mask, Pow2(j)) != 0 {
        calls := calls + [(key, items[key])];
        stop := !f(key, items[key]);
      }
    }

    /** The calls of Range for mask `i`, after those in `before`. */
    method RangeMask(f: (int, Item) -> bool, i: nat, before: seq<(int, Item)>)
        returns (calls: seq<(int, Item)>, stop: bool)
      requires Valid() && i < |masks| && RangedTo(f, masks, items, WORD * i, before)
      ensures if stop then Ranged(f, masks, items, calls)
              else RangedTo(f, masks, items, WORD * (i + 1), calls)
    {
      calls := before;
      var j := 0;
      while j < WORD
        invariant 0 <= j <= WORD
        invariant RangedTo(f, masks, items, WORD * i + j, calls)
      {
        calls, stop := RangeBit(f, i, j, calls);
        if stop {
          return;
        }
        j := j + 1;
      }
      assert WORD * i + WORD == WORD * (i + 1);
      stop := false;
    }

    /** Range: the calls made, in order. */
    method Range(f: (int, Item) -> bool) returns (calls: seq<(int, Item)>)
      requires Valid()
      ensures Ranged(f, masks, items, calls)
    {
      calls := [];
      var i := 0;
      while i < |masks|
        invariant 0 <= i <= |masks|
        invariant RangedTo(f, masks, items, WORD * i, calls)
      {
        if masks[i] != 0 {
          var stop;
          calls, stop := RangeMask(f, i, calls);
          if stop {
            return;
          }
        } else {
          RangedPastEmpty(f, masks, items, i, calls);
        }
        i := i + 1;
      }
      RangedAll(f, masks, items, calls);
    }

    method Reset()
      requires Valid()
      modifies this
      ensures Valid() && Map() == map[]
    {
      masks := seq(|masks|, _ => 0);
      items := seq(|items|, _ => zero);
      forall k ensures !Present(masks, k) {
        GrownPresent([], |masks|, k);
        assert masks == [] + masks;
      }
    }
  }

  /** A mask without a free bit. */
  predicate Full(mask: nat) {
    mask + 1 == Pow2(WORD)
  }

  predicate AllFull(masks: seq<nat>, n: nat)
    requires n <= |masks|
  {
    forall i :: 0 <= i < n ==> Full(masks[i])
  }

  lemma FullBits(mask: nat, j: nat)
    requires Full(mask) && j < WORD
    ensures Bit(mask, j)
  {
    NotBit(WORD, mask, j);
    ZeroBit(j);
  }

  predicate LowestFree(mask: nat, s: nat) {
    s < WORD && !Bit(mask, s) && forall j :: 0 <= j < s ==> Bit(mask, j)
  }

  /** bits.TrailingZeros64(^mask), if ^mask is not zero: the lowest free bit. */
  method FreeBit(mask: nat) returns (s: nat, free: bool)
    requires mask < Pow2(WORD)
    ensures free <==> !Full(mask)
    ensures free ==> LowestFree(mask, s)
  {
    var m := Not(WORD, mask);
    s, free := 0, m != 0;
    if free {
      s := TrailingZeros(m);
      TrailingIsLowestFree(mask, m, s, WORD);
    }
  }

  lemma TrailingIsLowestFree(mask: nat, m: nat, s: nat, w: nat)
    requires w == WORD && mask < Pow2(w) && m == Not(w, mask) && m != 0 && s == TrailingZeros(m)
    ensures LowestFree(mask, s)
  {
    BitsBounded(w, m, s);
    NotBit(w, mask, s);
    forall j | 0 <= j < s ensures Bit(mask, j) {
      NotBit(w, mask, j);
    }
  }

  /** `key` is the least key free in `m`. There are too few items for it to be larger than their number. */
  ghost predicate Takes<Item>(m: map<int, Item>, key: int) {
    0 <= key <= |m| && key !in m && forall k :: 0 <= k < key ==> k in m
  }

  /** The lowest free bit of the first mask that is not full is the least free key. */
  lemma LeastFree<Item>(masks: seq<nat>, items: seq<Item>, index: nat, shift: nat)
    requires |items| == WORD * |masks|
    requires index < |masks| && AllFull(masks, index) && LowestFree(masks[index], shift)
    ensures Takes(Contents(masks, items), WORD * index + shift)
  {
    SlotOf(index, shift);
    forall k | 0 <= k < WORD * index + shift ensures Present(masks, k) {
      if k / WORD < index {
        FullBits(masks[k / WORD], k % WORD);
      }
    }
    FewBelow(masks, items, WORD * index + shift);
  }

  /** The least free key is at most the number of items. */
  lemma FewBelow<Item>(masks: seq<nat>, items: seq<Item>, key: nat)
    requires |items| == WORD * |masks| && key <= |items|
    requires forall k :: 0 <= k < key ==> Present(masks, k)
    ensures key <= |Contents(masks, items)|
  {
    AllBelow(masks, key);
    KeysBelowGrows(masks, key, |items|);
    KeysAreBelow(masks, items);
  }

  lemma {:induction false} EmptyMask<Item>(masks: seq<nat>, items: seq<Item>, i: nat, j: nat)
    requires |items| == WORD * |masks| && i < |masks| && masks[i] == 0 && j <= WORD
    ensures Ascending(masks, items, WORD * i + j) == Ascending(masks, items, WORD * i)
    decreases j
  {
    if j > 0 {
      EmptyMask(masks, items, i, j - 1);
      SlotOf(i, j - 1);
      ZeroBit(j - 1);
    }
  }
}
