/**
  Instance specific extensions: per transaction a container of slots, one row per accessor,
  counted by use, taken from and given back to a pool of unused containers.
 */
module Extensions {
  import opened Options

  /** An extension, by identity. */
  type Ext = nat

  type Rows = seq<seq<Option<Ext>>>

  class Container {
    var rows: Rows
    var useCount: int
    var txn: nat            // my_txn
    var next: Container?    // for pooling

    constructor (accessors: nat, ids: nat)
      ensures Fields() == Part(Blank(accessors, ids), 0, 0, null)
    {
      rows, useCount, txn, next := Blank(accessors, ids), 0, 0, null;
    }

    ghost function Fields(): Part
      reads this
    {
      Part(rows, useCount, txn, next)
    }

    // Single assignments.

    method SetRows(x: Rows, ghost all: set<Container>)
      requires this in all
      modifies this`rows
      ensures rows == x && PartsOf(all) == old(PartsOf(all))[this := old(Fields()).(rows := x)]
    {
      rows := x;
    }

    method SetUseCount(x: int, ghost all: set<Container>)
      requires this in all
      modifies this`useCount
      ensures useCount == x && PartsOf(all) == old(PartsOf(all))[this := old(Fields()).(useCount := x)]
    {
      useCount := x;
    }

    method SetTxn(x: nat, ghost all: set<Container>)
      requires this in all
      modifies this`txn
      ensures txn == x && PartsOf(all) == old(PartsOf(all))[this := old(Fields()).(txn := x)]
    {
      txn := x;
    }

    method SetNext(x: Container?, ghost all: set<Container>)
      requires this in all
      modifies this`next
      ensures next == x && PartsOf(all) == old(PartsOf(all))[this := old(Fields()).(next := x)]
    {
      next := x;
    }
  }

  datatype Part = Part(rows: Rows, useCount: int, txn: nat, next: Container?)

  ghost function PartsOf(all: set<Container>): map<Container, Part>
    reads all
  {
    map c | c in all :: c.Fields()
  }

  lemma PartAt(all: set<Container>, c: Container)
    ensures PartsOf(all).Keys == all && (c in all ==> PartsOf(all)[c] == c.Fields())
  {
  }

  lemma PartAdded(all: set<Container>, c: Container)
    requires c !in all
    ensures PartsOf(all + {c}) == PartsOf(all)[c := c.Fields()]
  {
  }

  function Blank(accessors: nat, ids: nat): Rows {
    seq(accessors, _ => seq(ids, _ => None))
  }

  // ----- slots

  predicate Shape(rows: Rows, accessors: nat, ids: nat) {
    |rows| == accessors && forall a | 0 <= a < accessors :: |rows[a]| == ids
  }

  /** The slots that hold an extension. */
  function Live(rows: Rows): set<(int, int)> {
    set a, i | 0 <= a < |rows| && 0 <= i < |rows[a]| && rows[a][i].Some? :: (a, i)
  }

  function Put(rows: Rows, a: nat, i: nat, ext: Option<Ext>): Rows
    requires a < |rows| && i < |rows[a]|
  {
    rows[a := rows[a][i := ext]]
  }

  lemma PutSlot(rows: Rows, a: nat, i: nat, ext: Option<Ext>, slot: (int, int))
    requires a < |rows| && i < |rows[a]|
    ensures slot in Live(Put(rows, a, i, ext)) <==> if slot == (a, i) then ext.Some? else slot in Live(rows)
    ensures slot == (a, i) ==> (slot in Live(rows) <==> rows[a][i].Some?)
  {
  }

  lemma PutLive(rows: Rows, a: nat, i: nat, ext: Option<Ext>)
    requires a < |rows| && i < |rows[a]|
    ensures |Live(Put(rows, a, i, ext))| ==
              |Live(rows)| - (if rows[a][i].Some? then 1 else 0) + (if ext.Some? then 1 else 0)
  {
    hide Live, Put;
    var put, live := Live(Put(rows, a, i, ext)), Live(rows);
    forall slot: (int, int)
      ensures slot in put <==> if slot == (a, i) then ext.Some? else slot in live
    {
      PutSlot(rows, a, i, ext, slot);
    }
    PutSlot(rows, a, i, ext, (a, i));
    OneChanged(live, put, (a, i));
  }

  lemma OneChanged(live: set<(int, int)>, put: set<(int, int)>, slot: (int, int))
    requires forall x | x != slot :: x in put <==> x in live
    ensures |put| == |live| - (if slot in live then 1 else 0) + (if slot in put then 1 else 0)
  {
    var rest := live - {slot};
    assert put == if slot in put then rest + {slot} else rest;
    assert live == if slot in live then rest + {slot} else rest;
  }

  lemma NothingLive(rows: Rows, accessors: nat, ids: nat)
    requires Shape(rows, accessors, ids)
    ensures |Live(rows)| == 0 <==> rows == Blank(accessors, ids)
  {
    if |Live(rows)| == 0 {
      forall a | 0 <= a < accessors
        ensures rows[a] == Blank(accessors, ids)[a]
      {
        forall i | 0 <= i < ids
          ensures rows[a][i] == None
        {
          assert (a, i) !in Live(rows);
        }
      }
    }
  }

  // ----- the state

  /** `attached` gives the container behind the carrier of each transaction that has one; `free` is the pool from `unused` on. */
  datatype State = State(parts: map<Container, Part>, unused: Container?, attached: map<nat, Container>, free: seq<Container>)

  ghost predicate Pooled(s: State) {
    && (forall i, j | 0 <= i < j < |s.free| :: s.free[i] != s.free[j])
    && (forall c <- s.free :: c in s.parts)
    && s.unused == (if s.free == [] then null else s.free[0])
    && (forall i | 0 <= i < |s.free| - 1 :: s.parts[s.free[i]].next == s.free[i + 1])
    && (s.free != [] ==> s.parts[s.free[|s.free| - 1]].next == null)
  }

  /** A container is in the pool or belongs to one transaction. */
  ghost predicate Owned(s: State) {
    && (forall t | t in s.attached :: s.attached[t] in s.parts && s.attached[t] !in s.free)
    && (forall t | t in s.attached :: s.parts[s.attached[t]].txn == t)
    && (forall c | c in s.parts && c !in s.free :: s.parts[c].txn in s.attached && s.attached[s.parts[c].txn] == c)
  }

  /** A container counts at least its live slots, and an unused one has none. */
  ghost predicate Counts(s: State, accessors: nat, ids: nat) {
    && (forall c | c in s.parts :: Shape(s.parts[c].rows, accessors, ids) && s.parts[c].useCount >= |Live(s.parts[c].rows)|)
    && (forall c <- s.free :: c in s.parts && s.parts[c].rows == Blank(accessors, ids) && s.parts[c].useCount == 0)
  }

  /** Every container counts its live slots exactly. */
  ghost predicate Exact(s: State) {
    forall c | c in s.parts :: s.parts[c].useCount == |Live(s.parts[c].rows)|
  }

  ghost predicate Good(s: State, accessors: nat, ids: nat) {
    Pooled(s) && Owned(s) && Counts(s, accessors, ids)
  }

  /** What an accessor sees on a transaction. */
  ghost function View(s: State, accessors: nat, ids: nat, txn: nat): Rows {
    if txn in s.attached && s.attached[txn] in s.parts then s.parts[s.attached[txn]].rows else Blank(accessors, ids)
  }

  /** One slot of that, by transaction, accessor and extension id. */
  ghost function Seen(s: State, accessors: nat, ids: nat, txn: nat, a: nat, i: nat): Option<Ext> {
    var rows := View(s, accessors, ids, txn);
    if a < |rows| && i < |rows[a]| then rows[a][i] else None
  }

  /** From `s` to `t` the slot (txn, a, i) became `ext`, and every other slot of every transaction stayed as it was. */
  ghost predicate OneSlot(s: State, t: State, accessors: nat, ids: nat, txn: nat, a: nat, i: nat, ext: Option<Ext>) {
    forall u: nat, b: nat, k: nat ::
      Seen(t, accessors, ids, u, b, k) == if u == txn && b == a && k == i then ext else Seen(s, accessors, ids, u, b, k)
  }

  lemma PutIsOneSlot(s: State, t: State, accessors: nat, ids: nat, txn: nat, a: nat, i: nat, ext: Option<Ext>)
    requires a < |View(s, accessors, ids, txn)| && i < |View(s, accessors, ids, txn)[a]|
    requires forall u: nat ::
               View(t, accessors, ids, u) ==
               if u == txn then Put(View(s, accessors, ids, txn), a, i, ext) else View(s, accessors, ids, u)
    ensures OneSlot(s, t, accessors, ids, txn, a, i, ext)
  {
    hide View;
  }

  // No container serves two transactions.
  lemma OneOwner(s: State, t: nat, u: nat)
    requires Owned(s) && t in s.attached && u in s.attached && s.attached[t] == s.attached[u]
    ensures t == u
  {
  }

  // ----- taking a container for a transaction

  /** `c` is the container used: the first of the pool, or a new one if the pool is empty. */
  ghost function Taken(s: State, c: Container, txn: nat, accessors: nat, ids: nat): State {
    var parts := if s.unused == null then s.parts[c := Part(Blank(accessors, ids), 0, 0, null)] else s.parts;
    if c in parts then
      State(parts[c := parts[c].(txn := txn)], parts[c].next, s.attached[txn := c], if s.free == [] then [] else s.free[1..])
    else
      s
  }

  ghost predicate Takes(s: State, c: Container, txn: nat) {
    txn !in s.attached && (if s.unused == null then c !in s.parts else c == s.unused)
  }

  lemma TakenLinks(s: State, c: Container, txn: nat, accessors: nat, ids: nat)
    requires Pooled(s) && Takes(s, c, txn)
    ensures Pooled(Taken(s, c, txn, accessors, ids))
  {
    var t := Taken(s, c, txn, accessors, ids);
    hide Blank;
    assert forall i | 0 <= i < |t.free| :: t.free[i] == s.free[i + 1];
  }

  lemma TakenPooled(s: State, c: Container, txn: nat, accessors: nat, ids: nat)
    requires Pooled(s) && Takes(s, c, txn)
    ensures var t := Taken(s, c, txn, accessors, ids);
            && Pooled(t) && c !in t.free && c in t.parts && t.parts.Keys == s.parts.Keys + {c}
            && (forall x :: x in s.free <==> x in t.free || (s.unused != null && x == c))
  {
    TakenLinks(s, c, txn, accessors, ids);
    var t := Taken(s, c, txn, accessors, ids);
    assert s.free != [] ==> s.free == [c] + t.free;
    hide Blank;
  }

  lemma TakenOwned(s: State, c: Container, txn: nat, accessors: nat, ids: nat)
    requires Pooled(s) && Owned(s) && Takes(s, c, txn)
    ensures Owned(Taken(s, c, txn, accessors, ids))
  {
    TakenPooled(s, c, txn, accessors, ids);
    hide Pooled;
  }

  lemma TakenCounts(s: State, c: Container, txn: nat, accessors: nat, ids: nat)
    requires Pooled(s) && Counts(s, accessors, ids) && Takes(s, c, txn)
    ensures Counts(Taken(s, c, txn, accessors, ids), accessors, ids)
    ensures Exact(s) ==> Exact(Taken(s, c, txn, accessors, ids))
    ensures c in Taken(s, c, txn, accessors, ids).parts
    ensures Taken(s, c, txn, accessors, ids).parts[c].rows == Blank(accessors, ids)
  {
    assert s.unused != null ==> c in s.free;
    TakenPooled(s, c, txn, accessors, ids);
    NothingLive(Blank(accessors, ids), accessors, ids);
    hide Pooled, Live, Shape, Blank;
  }

  lemma TakenView(s: State, c: Container, txn: nat, accessors: nat, ids: nat, u: nat)
    requires Good(s, accessors, ids) && Takes(s, c, txn)
    ensures View(Taken(s, c, txn, accessors, ids), accessors, ids, u) == View(s, accessors, ids, u)
  {
    TakenPooled(s, c, txn, accessors, ids);
    TakenCounts(s, c, txn, accessors, ids);
    assert u in s.attached ==> s.attached[u] != c && s.attached[u] in s.parts;
    hide Pooled, Owned, Counts, Blank;
  }

  // A container newly attached to a transaction shows nothing, as if it were not there.
  lemma TakenGood(s: State, c: Container, txn: nat, accessors: nat, ids: nat)
    requires Good(s, accessors, ids) && Takes(s, c, txn)
    ensures var t := Taken(s, c, txn, accessors, ids);
            && Good(t, accessors, ids) && (Exact(s) ==> Exact(t)) && txn in t.attached && t.attached[txn] == c
            && forall u: nat :: View(t, accessors, ids, u) == View(s, accessors, ids, u)
  {
    hide Pooled, Owned, Counts, Exact, Blank, View;
    TakenPooled(s, c, txn, accessors, ids);
    TakenOwned(s, c, txn, accessors, ids);
    TakenCounts(s, c, txn, accessors, ids);
    forall u: nat
      ensures View(Taken(s, c, txn, accessors, ids), accessors, ids, u) == View(s, accessors, ids, u)
    {
      TakenView(s, c, txn, accessors, ids, u);
    }
  }

  // ----- setting and clearing

  /** set_extension of one accessor: counts only where nothing was and something is put. */
  ghost function Set(s: State, c: Container, a: nat, i: nat, ext: Option<Ext>): State
    requires c in s.parts && a < |s.parts[c].rows| && i < |s.parts[c].rows[a]|
  {
    var p := s.parts[c];
    s.(parts := s.parts[c := p.(rows := Put(p.rows, a, i, ext),
                                useCount := p.useCount + if p.rows[a][i].None? && ext.Some? then 1 else 0)])
  }

  /** clear_extension of one accessor; with the last use the container goes back to the pool. */
  ghost function Cleared(s: State, c: Container, a: nat, i: nat): State
    requires c in s.parts && a < |s.parts[c].rows| && i < |s.parts[c].rows[a]|
  {
    var p := s.parts[c];
    if p.rows[a][i].None? then s
    else
      var q := p.(rows := Put(p.rows, a, i, None), useCount := p.useCount - 1);
      if q.useCount == 0 then
        State(s.parts[c := q.(next := s.unused)], c, s.attached - {p.txn}, [c] + s.free)
      else
        s.(parts := s.parts[c := q])
  }

  ghost predicate Slot(s: State, c: Container, txn: nat, a: nat, i: nat, accessors: nat, ids: nat) {
    && Good(s, accessors, ids) && txn in s.attached && s.attached[txn] == c && a < accessors && i < ids
    && c in s.parts && Shape(s.parts[c].rows, accessors, ids)
  }

  // The links and owners depend on the next and txn of the parts only.
  lemma PartChanged(s: State, c: Container, q: Part)
    requires Pooled(s) && Owned(s) && c in s.parts && q.next == s.parts[c].next && q.txn == s.parts[c].txn
    ensures Pooled(s.(parts := s.parts[c := q])) && Owned(s.(parts := s.parts[c := q]))
  {
  }

  lemma CountChanged(s: State, c: Container, q: Part, accessors: nat, ids: nat)
    requires Counts(s, accessors, ids) && c in s.parts && c !in s.free
    requires Shape(q.rows, accessors, ids) && q.useCount >= |Live(q.rows)|
    ensures Counts(s.(parts := s.parts[c := q]), accessors, ids)
  {
    hide Shape, Live, Blank;
  }

  lemma SetGood(s: State, c: Container, txn: nat, a: nat, i: nat, ext: Option<Ext>, accessors: nat, ids: nat)
    requires Slot(s, c, txn, a, i, accessors, ids)
    ensures Good(Set(s, c, a, i, ext), accessors, ids)
  {
    PutLive(s.parts[c].rows, a, i, ext);
    var p := s.parts[c];
    var q := Set(s, c, a, i, ext).parts[c];
    assert c !in s.free;
    hide Pooled, Owned;
    PartChanged(s, c, q);
    CountChanged(s, c, q, accessors, ids);
  }

  // The counts stay exact unless null is set over a live slot.
  lemma SetExact(s: State, c: Container, txn: nat, a: nat, i: nat, ext: Option<Ext>, accessors: nat, ids: nat)
    requires Slot(s, c, txn, a, i, accessors, ids) && Exact(s)
    ensures Exact(Set(s, c, a, i, ext)) <==> !(s.parts[c].rows[a][i].Some? && ext.None?)
  {
    PutLive(s.parts[c].rows, a, i, ext);
    hide Live, Blank, Good;
    var t := Set(s, c, a, i, ext);
    assert forall d | d in s.parts && d != c :: t.parts[d] == s.parts[d];
    assert t.parts[c].useCount == |Live(s.parts[c].rows)| + if s.parts[c].rows[a][i].None? && ext.Some? then 1 else 0;
  }

  // Setting changes the row of this accessor on this transaction, and nothing else anyone sees.
  lemma SetView(s: State, c: Container, txn: nat, a: nat, i: nat, ext: Option<Ext>, accessors: nat, ids: nat, u: nat)
    requires Slot(s, c, txn, a, i, accessors, ids)
    ensures |View(s, accessors, ids, txn)| == accessors && |View(s, accessors, ids, txn)[a]| == ids
    ensures View(Set(s, c, a, i, ext), accessors, ids, u) ==
              if u == txn then Put(View(s, accessors, ids, txn), a, i, ext) else View(s, accessors, ids, u)
  {
    hide Pooled, Counts, Put, Blank;
    if u in s.attached && s.attached[u] == c {
      OneOwner(s, u, txn);
    }
  }

  lemma ReleasePooled(s: State, c: Container, q: Part)
    requires Pooled(s) && c in s.parts && c !in s.free && q.next == s.unused
    ensures Pooled(State(s.parts[c := q], c, s.attached - {q.txn}, [c] + s.free))
  {
    var t := State(s.parts[c := q], c, s.attached - {q.txn}, [c] + s.free);
    assert forall i | 1 <= i < |t.free| :: t.free[i] == s.free[i - 1];
  }

  lemma ReleaseOwned(s: State, c: Container, q: Part, txn: nat)
    requires Owned(s) && txn in s.attached && s.attached[txn] == c && q.txn == txn
    ensures Owned(State(s.parts[c := q], c, s.attached - {q.txn}, [c] + s.free))
  {
    assert forall u | u in s.attached && s.attached[u] == c :: u == txn;
  }

  lemma ReleaseCounts(s: State, c: Container, q: Part, accessors: nat, ids: nat)
    requires Counts(s, accessors, ids) && c in s.parts && q.rows == Blank(accessors, ids) && q.useCount == 0
    ensures Counts(State(s.parts[c := q], c, s.attached - {q.txn}, [c] + s.free), accessors, ids)
    ensures Exact(s) ==> Exact(State(s.parts[c := q], c, s.attached - {q.txn}, [c] + s.free))
  {
    NothingLive(q.rows, accessors, ids);
    hide Live;
  }

  lemma SlotFacts(s: State, c: Container, txn: nat, a: nat, i: nat, accessors: nat, ids: nat)
    requires Slot(s, c, txn, a, i, accessors, ids)
    ensures c !in s.free && s.parts[c].txn == txn && s.parts[c].useCount >= |Live(s.parts[c].rows)|
    ensures forall ext :: Shape(Put(s.parts[c].rows, a, i, ext), accessors, ids)
  {
  }

  lemma ClearedGood(s: State, c: Container, txn: nat, a: nat, i: nat, accessors: nat, ids: nat)
    requires Slot(s, c, txn, a, i, accessors, ids)
    ensures Good(Cleared(s, c, a, i), accessors, ids) && (Exact(s) ==> Exact(Cleared(s, c, a, i)))
  {
    hide Pooled, Owned, Counts, Exact, Live, Blank;
    SlotFacts(s, c, txn, a, i, accessors, ids);
    var p := s.parts[c];
    if p.rows[a][i].Some? {
      PutLive(p.rows, a, i, None);
      var q := p.(rows := Put(p.rows, a, i, None), useCount := p.useCount - 1);
      if q.useCount == 0 {
        NothingLive(q.rows, accessors, ids);
        ReleasePooled(s, c, q.(next := s.unused));
        ReleaseOwned(s, c, q.(next := s.unused), txn);
        ReleaseCounts(s, c, q.(next := s.unused), accessors, ids);
        return;
      }
      PartChanged(s, c, q);
      CountChanged(s, c, q, accessors, ids);
      ExactChanged(s, c, q);
    }
  }

  lemma ExactChanged(s: State, c: Container, q: Part)
    requires c in s.parts && (s.parts[c].useCount == |Live(s.parts[c].rows)| ==> q.useCount == |Live(q.rows)|)
    ensures Exact(s) ==> Exact(s.(parts := s.parts[c := q]))
  {
    hide Live;
  }

  // Clearing empties the slot of this accessor on this transaction, and nothing else anyone sees:
  // the container that goes back to the pool showed nothing any more.
  lemma ClearedView(s: State, c: Container, txn: nat, a: nat, i: nat, accessors: nat, ids: nat, u: nat)
    requires Slot(s, c, txn, a, i, accessors, ids)
    ensures |View(s, accessors, ids, txn)| == accessors && |View(s, accessors, ids, txn)[a]| == ids
    ensures View(Cleared(s, c, a, i), accessors, ids, u) ==
              if u == txn then Put(View(s, accessors, ids, txn), a, i, None) else View(s, accessors, ids, u)
  {
    var p := s.parts[c];
    PutLive(p.rows, a, i, None);
    if p.rows[a][i].Some? {
      NothingLive(Put(p.rows, a, i, None), accessors, ids);
    } else {
      assert p.rows[a][i := None] == p.rows[a];
      assert Put(p.rows, a, i, None) == p.rows;
    }
    hide Pooled, Put, Blank, Live, Exact;
    if u in s.attached && s.attached[u] == c {
      OneOwner(s, u, txn);
    }
  }

  // ----- the accessors

  class Registry {
    const accessors: nat                 // max_num_ispex_accessors, all registered
    const ids: nat                       // max_num_ispex
    var unused: Container?
    var attached: map<nat, Container>    // behind the carriers in the transactions' extension arrays
    ghost var all: set<Container>
    ghost var free: seq<Container>

    ghost function Now(): State
      reads this, all
    {
      State(PartsOf(all), unused, attached, free)
    }

    ghost predicate Valid()
      reads this, all
    {
      Good(Now(), accessors, ids)
    }

    constructor (accessors: nat, ids: nat)
      ensures Valid() && Exact(Now()) && this.accessors == accessors && this.ids == ids
      ensures attached == map[] && all == {}
    {
      this.accessors, this.ids := accessors, ids;
      unused, attached, all, free := null, map[], {}, [];
    }

    /** The accessor's operator(): the container of the transaction, taken from the pool if it has none. */
    method ContainerFor(txn: nat) returns (c: Container)
      requires Valid()
      modifies this, all
      ensures Valid() && old(all) <= all && fresh(all - old(all)) && c in all && txn in attached && attached[txn] == c
      ensures old(Exact(Now())) ==> Exact(Now())
      ensures forall u: nat :: View(Now(), accessors, ids, u) == old(View(Now(), accessors, ids, u))
      ensures txn in old(attached) ==> Now() == old(Now())
    {
      hide Pooled, Owned, Counts, Exact, View, PartsOf, Blank;
      if txn in attached {
        c := attached[txn];
        AttachedIn(txn);
        return;
      }
      ghost var s := Now();
      if unused == null {
        c := new Container(accessors, ids);
        PartAt(all, c);
        PartAdded(all, c);
        all := all + {c};
        unused := c;
      }
      PartAt(all, unused);
      c := unused;
      PooledAt(s);
      PartAt(all, c);
      unused := unused.next;
      free := if free == [] then [] else free[1..];
      c.SetTxn(txn, all);
      attached := attached[txn := c];
      TakenGood(s, c, txn, accessors, ids);
      assert Now() == Taken(s, c, txn, accessors, ids);
    }

    /** set_extension on one accessor of a transaction. */
    method SetExtension(txn: nat, a: nat, i: nat, ext: Option<Ext>) returns (previous: Option<Ext>)
      requires Valid() && a < accessors && i < ids
      modifies this, all
      ensures Valid() && old(all) <= all && fresh(all - old(all))
      ensures ViewAt(old(Now()), txn, a, i) && previous == View(old(Now()), accessors, ids, txn)[a][i]
      ensures previous == old(Seen(Now(), accessors, ids, txn, a, i))
      ensures forall u: nat ::
                View(Now(), accessors, ids, u) ==
                if u == txn then Put(View(old(Now()), accessors, ids, txn), a, i, ext) else View(old(Now()), accessors, ids, u)
      ensures OneSlot(old(Now()), Now(), accessors, ids, txn, a, i, ext)
      ensures old(Exact(Now())) ==> (Exact(Now()) <==> previous.None? || ext.Some?)
    {
      ghost var start := Now();
      hide Pooled, Owned, Counts, Exact, View, PartsOf, Blank, Good;
      var c := ContainerFor(txn);
      ghost var s := Now();
      PartAt(all, c);
      SlotAt(txn, a, i);
      SetGood(s, c, txn, a, i, ext, accessors, ids);
      if Exact(s) {
        SetExact(s, c, txn, a, i, ext, accessors, ids);
      }
      forall u: nat
        ensures View(Set(s, c, a, i, ext), accessors, ids, u) ==
                if u == txn then Put(View(s, accessors, ids, txn), a, i, ext) else View(s, accessors, ids, u)
      {
        SetView(s, c, txn, a, i, ext, accessors, ids, u);
      }
      previous := c.rows[a][i];
      c.SetRows(Put(c.rows, a, i, ext), all);
      PartAt(all, c);
      if previous.None? && ext.Some? {
        c.SetUseCount(c.useCount + 1, all);
      }
      assert Now() == Set(s, c, a, i, ext);
      hide Put, OneSlot;
      PutIsOneSlot(start, Now(), accessors, ids, txn, a, i, ext);
    }

    /** get_extension on one accessor of a transaction. */
    method GetExtension(txn: nat, a: nat, i: nat) returns (ext: Option<Ext>)
      requires Valid() && a < accessors && i < ids
      modifies this, all
      ensures Valid() && old(all) <= all && fresh(all - old(all)) && (old(Exact(Now())) ==> Exact(Now()))
      ensures ViewAt(old(Now()), txn, a, i) && ext == View(old(Now()), accessors, ids, txn)[a][i]
      ensures ext == old(Seen(Now(), accessors, ids, txn, a, i))
      ensures forall u: nat :: View(Now(), accessors, ids, u) == View(old(Now()), accessors, ids, u)
    {
      hide Pooled, Owned, Counts, Exact, View, PartsOf, Blank, Good;
      var c := ContainerFor(txn);
      PartAt(all, c);
      SlotAt(txn, a, i);
      ext := c.rows[a][i];
    }

    /** clear_extension on one accessor of a transaction; an index beyond the slots does nothing. */
    method ClearExtension(txn: nat, a: nat, i: nat)
      requires Valid() && a < accessors
      modifies this, all
      ensures Valid() && old(all) <= all && fresh(all - old(all)) && (old(Exact(Now())) ==> Exact(Now()))
      ensures i >= ids ==> forall u: nat :: View(Now(), accessors, ids, u) == View(old(Now()), accessors, ids, u)
      ensures i < ids ==> ViewAt(old(Now()), txn, a, i)
      ensures i < ids ==>
                forall u: nat ::
                  View(Now(), accessors, ids, u) ==
                  if u == txn then Put(View(old(Now()), accessors, ids, txn), a, i, None) else View(old(Now()), accessors, ids, u)
      ensures i < ids ==> OneSlot(old(Now()), Now(), accessors, ids, txn, a, i, None)
    {
      ghost var start := Now();
      hide Pooled, Owned, Counts, Exact, View, PartsOf, Blank, Good;
      var c := ContainerFor(txn);
      if i >= ids {
        return;
      }
      ghost var s := Now();
      PartAt(all, c);
      SlotAt(txn, a, i);
      ClearedGood(s, c, txn, a, i, accessors, ids);
      ClearedViews(s, c, txn, a, i);
      hide Cleared;
      ClearSlot(c, a, i);
      hide Put, OneSlot;
      PutIsOneSlot(start, Now(), accessors, ids, txn, a, i, None);
    }

    /** clear of the accessor's own row. */
    method ClearSlot(c: Container, a: nat, i: nat)
      requires c in all && c in Now().parts && a < |Now().parts[c].rows| && i < |Now().parts[c].rows[a]|
      modifies this`unused, this`attached, this`free, c
      ensures Now() == Cleared(old(Now()), c, a, i)
    {
      hide PartsOf;
      PartAt(all, c);
      if c.rows[a][i].None? {
        return;
      }
      DecUseCount(c);
      PartAt(all, c);
      c.SetRows(Put(c.rows, a, i, None), all);
    }

    /** The container's callback: at zero it goes back to the pool and off its transaction. */
    method DecUseCount(c: Container)
      requires c in all
      modifies this`unused, this`attached, this`free, c`useCount, c`next
      ensures var s, p := old(Now()), old(c.Fields());
              Now() == if p.useCount == 1 then
                State(s.parts[c := p.(useCount := 0, next := s.unused)], c, s.attached - {p.txn}, [c] + s.free)
              else
                s.(parts := s.parts[c := p.(useCount := p.useCount - 1)])
    {
      hide PartsOf;
      c.SetUseCount(c.useCount - 1, all);
      if c.useCount == 0 {
        c.SetNext(unused, all);
        unused := c;
        free := [c] + free;
        attached := attached - {c.txn};
      }
    }

    ghost predicate ViewAt(s: State, txn: nat, a: nat, i: nat) {
      a < |View(s, accessors, ids, txn)| && i < |View(s, accessors, ids, txn)[a]|
    }

    lemma ClearedViews(s: State, c: Container, txn: nat, a: nat, i: nat)
      requires Slot(s, c, txn, a, i, accessors, ids)
      ensures |View(s, accessors, ids, txn)| == accessors && |View(s, accessors, ids, txn)[a]| == ids
      ensures forall u: nat ::
                View(Cleared(s, c, a, i), accessors, ids, u) ==
                if u == txn then Put(View(s, accessors, ids, txn), a, i, None) else View(s, accessors, ids, u)
    {
      hide *;
      ClearedView(s, c, txn, a, i, accessors, ids, txn);
      forall u: nat {
        ClearedView(s, c, txn, a, i, accessors, ids, u);
      }
    }

    lemma SlotAt(txn: nat, a: nat, i: nat)
      requires Valid() && txn in attached && a < accessors && i < ids
      ensures Slot(Now(), attached[txn], txn, a, i, accessors, ids)
      ensures Now().parts[attached[txn]].rows == View(Now(), accessors, ids, txn)
      ensures ViewAt(Now(), txn, a, i)
    {
      hide Pooled, Live, Blank;
    }

    lemma AttachedIn(txn: nat)
      requires Valid() && txn in attached
      ensures attached[txn] in all
    {
      PartAt(all, attached[txn]);
    }

    lemma PooledAt(s: State)
      requires Pooled(s)
      ensures s.unused == null ==> s.free == []
      ensures s.unused != null ==> s.free != [] && s.unused in s.parts
    {
    }
  }

  // Setting an extension and then null leaves the use count one too high.
  method NullOverLive(txn: nat, ext: Ext) returns (r: Registry)
    ensures fresh(r) && r.Valid() && !Exact(r.Now())
  {
    hide Good, Exact, View, PartsOf;
    r := new Registry(1, 1);
    var _ := r.SetExtension(txn, 0, 0, Some(ext));
    var previous := r.SetExtension(txn, 0, 0, None);
    assert previous == Some(ext);
  }

  // What was set last is what is found, and nothing once it is cleared.
  method LastSetWins(r: Registry, txn: nat, a: nat, i: nat, first: Ext, second: Ext)
    returns (previous: Option<Ext>, found: Option<Ext>, left: Option<Ext>)
    requires r.Valid() && a < r.accessors && i < r.ids
    modifies r, r.all
    ensures r.Valid() && previous == Some(first) && found == Some(second) && left == None
  {
    hide Good, Exact, View, PartsOf, Put, Seen;
    var _ := r.SetExtension(txn, a, i, Some(first));
    previous := r.SetExtension(txn, a, i, Some(second));
    found := r.GetExtension(txn, a, i);
    r.ClearExtension(txn, a, i);
    left := r.GetExtension(txn, a, i);
  }
}
