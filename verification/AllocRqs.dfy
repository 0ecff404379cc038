/** Carving the requests of a tag map out of pages (block/blk-mq.c:2232-2322). */
module AllocRqs {

  const MAX_ORDER := 4

  /** A request: its number within a block of pages, at offset number * size. */
  datatype Slice = Slice(block: nat, number: nat)

  /** order_to_size, in bytes. */
  function OrderSize(page: nat, order: nat): (s: nat)
    ensures s >= page
  {
    if order == 0 then page else 2 * OrderSize(page, order - 1)
  }

  lemma {:induction false} OrderMonotone(page: nat, a: nat, b: nat)
    requires a <= b
    ensures OrderSize(page, a) <= OrderSize(page, b)
  {
    if a < b {
      OrderMonotone(page, a, b - 1);
    }
  }

  lemma {:induction false} Entries(size: nat, rqSize: nat)
    requires rqSize >= 1
    ensures size / rqSize * rqSize <= size
    ensures size / rqSize >= 1 <==> size >= rqSize
  {
    var q := size / rqSize;
    assert size == q * rqSize + size % rqSize;
    assert q >= 1 ==> q * rqSize >= rqSize;
  }

  /** Half a block of this order would do for what is left. */
  predicate TooBig(page: nat, left: nat, order: nat)
  {
    order > 0 && left < OrderSize(page, order - 1)
  }

  /** A request of this size has room in the largest block. */
  predicate Fits(page: nat, rqSize: nat)
  {
    rqSize <= OrderSize(page, MAX_ORDER)
  }

  /** The order to try first: no larger than what is left needs. */
  method FirstOrder(page: nat, rqSize: nat, left: nat) returns (order: nat)
    requires 1 <= rqSize <= left
    ensures order <= MAX_ORDER && if Fits(page, rqSize) then OrderSize(page, order) >= rqSize else order == MAX_ORDER
    ensures !TooBig(page, left, order)
    ensures forall o :: order < o <= MAX_ORDER ==> TooBig(page, left, o)
    ensures order > 0 ==> OrderSize(page, order - 1) <= left
    ensures order < MAX_ORDER ==> left < OrderSize(page, order)
  {
    order := MAX_ORDER;
    while TooBig(page, left, order)
      decreases order
      invariant order <= MAX_ORDER
      invariant if Fits(page, rqSize) then OrderSize(page, order) >= rqSize else order == MAX_ORDER
      invariant forall o :: order < o <= MAX_ORDER ==> TooBig(page, left, o)
      invariant order < MAX_ORDER ==> left < OrderSize(page, order)
    {
      order := order - 1;
    }
  }

  /** alloc_pages_node with smaller and smaller orders; `orders` are those it can satisfy.  The
      first order is tried whatever it holds, the others only if they hold a request. */
  method AllocPages(page: nat, rqSize: nat, first: nat, orders: set<nat>) returns (ok: bool, order: nat)
    ensures ok ==> order in orders && order <= first && (order == first || OrderSize(page, order) >= rqSize)
    ensures ok ==> forall o :: order < o <= first ==> o !in orders
    ensures !ok ==> first !in orders && forall o :: o in orders && o <= first ==> OrderSize(page, o) < rqSize
  {
    ok, order := false, first;
    while true
      invariant order <= first && (order == first || OrderSize(page, order) >= rqSize)
      invariant forall o :: order < o <= first ==> o !in orders
      decreases order
    {
      ok := order in orders;
      if ok || order == 0 {
        return;
      }
      order := order - 1;
      if OrderSize(page, order) < rqSize {
        forall o: nat | o <= order
          ensures OrderSize(page, o) < rqSize
        {
          OrderMonotone(page, o, order);
        }
        return;
      }
    }
  }

  /** Every slice lies inside its block, and no two slices are the same. */
  ghost predicate Carved(page: nat, rqSize: nat, blocks: seq<nat>, rqs: seq<Slice>)
  {
    && (forall i :: 0 <= i < |rqs| ==>
          rqs[i].block < |blocks| && Inside(rqs[i].number, rqSize, OrderSize(page, blocks[rqs[i].block])))
    && (forall i, j :: 0 <= i < j < |rqs| ==> rqs[i] != rqs[j])
  }

  ghost predicate Inside(number: nat, rqSize: nat, size: nat)
  {
    number * rqSize + rqSize <= size
  }

  lemma {:induction false} NextMultiple(a: nat, b: nat, m: nat)
    requires a < b
    ensures a * m + m <= b * m
  {
    var d := b - a;
    assert d * m == b * m - a * m;
    assert d >= 1 ==> d * m >= m;
  }

  lemma {:induction false} InsideBelow(number: nat, rqSize: nat, size: nat)
    requires rqSize >= 1 && number < size / rqSize
    ensures Inside(number, rqSize, size)
  {
    Entries(size, rqSize);
    NextMultiple(number, size / rqSize, rqSize);
  }

  /** Different slices of one block do not overlap. */
  lemma {:induction false} SlicesDisjoint(a: Slice, b: Slice, rqSize: nat)
    requires a.block == b.block && a != b
    ensures a.number * rqSize + rqSize <= b.number * rqSize || b.number * rqSize + rqSize <= a.number * rqSize
  {
    var d := a.number - b.number;
    assert d * rqSize == a.number * rqSize - b.number * rqSize;
    assert d >= 1 ==> d * rqSize >= rqSize;
    assert d <= -1 ==> d * rqSize + rqSize <= 0;
  }

  /** `n` requests have room in a block of this size. */
  ghost predicate Holds(size: nat, rqSize: nat, n: nat)
    requires rqSize >= 1
  {
    n <= size / rqSize
  }

  /** How many of the `n` requests that are left go into one block. */
  method Portion(size: nat, rqSize: nat, n: nat) returns (todo: nat)
    requires rqSize >= 1
    ensures Holds(size, rqSize, todo) && todo <= n && (todo < n ==> !Holds(size, rqSize, todo + 1))
    ensures todo > 0 <==> size >= rqSize && n > 0
  {
    Entries(size, rqSize);
    todo := size / rqSize;
    if n < todo {
      todo := n;
    }
  }

  /** Fill one block with up to `todo` requests; init_request fails once `inits` are placed. */
  method Fill(page: nat, rqSize: nat, blocks: seq<nat>, rqs0: seq<Slice>, todo: nat, inits: nat)
    returns (ok: bool, rqs: seq<Slice>)
    requires rqSize >= 1 && blocks != [] && Holds(OrderSize(page, blocks[|blocks| - 1]), rqSize, todo)
    requires Carved(page, rqSize, blocks, rqs0) && forall i :: 0 <= i < |rqs0| ==> rqs0[i].block < |blocks| - 1
    requires |rqs0| <= inits
    ensures Carved(page, rqSize, blocks, rqs) && |rqs0| <= |rqs| <= inits
    ensures if ok then |rqs| == |rqs0| + todo else |rqs| < |rqs0| + todo && |rqs| == inits
  {
    var b := |blocks| - 1;
    ok, rqs := true, rqs0;
    for j := 0 to todo
      invariant Carved(page, rqSize, blocks, rqs) && |rqs| == |rqs0| + j <= inits
      invariant forall i :: 0 <= i < |rqs| ==> rqs[i].block < b || (rqs[i].block == b && rqs[i].number < j)
    {
      InsideBelow(j, rqSize, OrderSize(page, blocks[b]));
      if |rqs| == inits {
        return false, rqs;
      }
      rqs := rqs + [Slice(b, j)];
    }
  }

  /** Every block has an order that could be satisfied for it. */
  ghost predicate Granted(blocks: seq<nat>, grants: seq<set<nat>>)
  {
    |blocks| <= |grants| && forall b :: 0 <= b < |blocks| ==> blocks[b] <= MAX_ORDER && blocks[b] in grants[b]
  }

  lemma {:induction false} GrantedSnoc(blocks: seq<nat>, grants: seq<set<nat>>, order: nat)
    requires Granted(blocks, grants) && |blocks| < |grants| && order <= MAX_ORDER && order in grants[|blocks|]
    ensures Granted(blocks + [order], grants)
  {
  }

  /** No order that can be satisfied is both large enough for a request and not larger than
      what is left needs. */
  ghost predicate NoBlock(page: nat, rqSize: nat, left: nat, orders: set<nat>)
  {
    forall o :: o in orders && o <= MAX_ORDER ==>
      OrderSize(page, o) < rqSize || TooBig(page, left, o)
  }

  /** blk_mq_alloc_rqs; `grants` gives the orders that can be satisfied for each block.  On
      success all requests are disjoint slices of allocated blocks.  It fails only where
      init_request does, after `inits` requests, or where no block can be had.  Requests that fit
      the largest block need at most one block each, whatever allocations fail; for larger ones
      no block is of any use, and it takes every block it can get.  At every iteration `left` is
      the request size times the requests still to place. */
  method Alloc(page: nat, rqSize: nat, depth: nat, grants: seq<set<nat>>, inits: nat)
    returns (ok: bool, blocks: seq<nat>, rqs: seq<Slice>)
    requires rqSize >= 1
    ensures Carved(page, rqSize, blocks, rqs)
    ensures ok ==> |rqs| == depth
    ensures !ok ==> |rqs| < depth && (|rqs| == inits || |blocks| >= |grants|
                                      || NoBlock(page, rqSize, rqSize * (depth - |rqs|), grants[|blocks|]))
    ensures Granted(blocks, grants)
    ensures Fits(page, rqSize) ==> |blocks| <= depth
    ensures !Fits(page, rqSize) && depth > 0 ==>
              !ok && rqs == [] && (|blocks| < |grants| ==> MAX_ORDER !in grants[|blocks|])
              && forall b :: 0 <= b < |blocks| ==> blocks[b] == MAX_ORDER
  {
    ok, blocks, rqs := true, [], [];
    var left := rqSize * depth;
    while |rqs| < depth
      invariant ok && Carved(page, rqSize, blocks, rqs) && |rqs| <= depth && |rqs| <= inits
      invariant left == rqSize * (depth - |rqs|)
      invariant Granted(blocks, grants)
      invariant Fits(page, rqSize) ==> |blocks| <= |rqs|
      invariant !Fits(page, rqSize) ==> rqs == [] && forall b :: 0 <= b < |blocks| ==> blocks[b] == MAX_ORDER
      decreases |grants| - |blocks|
    {
      LeftAtLeast(rqSize, depth - |rqs|);
      var order := FirstOrder(page, rqSize, left);
      ok, order := AllocPages(page, rqSize, order, if |blocks| < |grants| then grants[|blocks|] else {});
      if !ok {
        return;
      }
      GrantedSnoc(blocks, grants, order);
      var todo := Portion(OrderSize(page, order), rqSize, depth - |rqs|);
      ghost var before := |rqs|;
      blocks := blocks + [order];
      ok, rqs := Fill(page, rqSize, blocks, rqs, todo, inits);
      if !ok {
        return;
      }
      left := left - todo * rqSize;
      LeftLess(rqSize, depth - before, todo);
    }
  }

  lemma {:induction false} LeftAtLeast(rqSize: nat, n: nat)
    requires n >= 1
    ensures rqSize * n >= rqSize
  {
  }

  lemma {:induction false} LeftLess(rqSize: nat, n: int, todo: nat)
    ensures rqSize * n - todo * rqSize == rqSize * (n - todo)
  {
  }

  /** A larger request fits no block at all: the loop would place nothing, whichever order it
      got, and come round again. */
  lemma {:induction false} TooLargeNeverPlaced(page: nat, rqSize: nat, order: nat)
    requires rqSize > OrderSize(page, MAX_ORDER) && order <= MAX_ORDER
    ensures OrderSize(page, order) / rqSize == 0
  {
    OrderMonotone(page, order, MAX_ORDER);
    BelowDivisor(OrderSize(page, order), rqSize);
  }

  lemma {:induction false} BelowDivisor(size: nat, rqSize: nat)
    requires size < rqSize
    ensures size / rqSize == 0
  {
    Entries(size, rqSize);
  }
}
