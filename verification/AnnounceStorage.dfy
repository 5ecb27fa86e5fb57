/**
 The store of announced contacts (`bip_dht/src/storage.rs`), refined to a map from contacts to the time
 of their last announce. Times are in milliseconds.
 */
module AnnounceStorages {
  import opened Basics
  import opened Nodes

  const MAX_ITEMS_STORED: nat := 500
  const EXPIRATION_TIME: int := 24 * 60 * 60 * 1000

  /** Hashes only matter up to equality. */
  type InfoHash = nat

  datatype Contact = Contact(hash: InfoHash, addr: SocketAddr)

  datatype Item = Item(contact: Contact, inserted: int) {
    predicate IsExpired(now: int) {
      now - inserted >= EXPIRATION_TIME
    }
  }

  // ---------------------------------------------------------------------------------------------
  // The specification
  // ---------------------------------------------------------------------------------------------

  /** What is not older than a day. */
  ghost function Live(times: map<Contact, int>, now: int): map<Contact, int> {
    map c | c in times && now - times[c] < EXPIRATION_TIME :: times[c]
  }

  ghost predicate HasRoom(times: map<Contact, int>, c: Contact) {
    c in times || |times| < MAX_ITEMS_STORED
  }

  ghost function Announced(times: map<Contact, int>, c: Contact, now: int, inserted: int): map<Contact, int> {
    var live := Live(times, now);
    if HasRoom(live, c) then live[c := inserted] else live
  }

  // ---------------------------------------------------------------------------------------------
  // Lists of items
  // ---------------------------------------------------------------------------------------------

  predicate Holds(items: seq<Item>, c: Contact) {
    exists i :: 0 <= i < |items| && items[i].contact == c
  }

  ghost predicate Distinct(items: seq<Item>) {
    forall i, j :: 0 <= i < j < |items| ==> items[i].contact != items[j].contact
  }

  ghost predicate InOrder(items: seq<Item>) {
    forall i, j :: 0 <= i < j < |items| ==> items[i].inserted <= items[j].inserted
  }

  /** `retain`: everything but the contact. */
  function Without(items: seq<Item>, c: Contact): (r: seq<Item>)
    ensures forall x :: x in r <==> x in items && x.contact != c
    ensures Distinct(items) ==> Distinct(r)
    ensures InOrder(items) ==> InOrder(r)
  {
    if items == [] then []
    else
      var rest := Without(items[1..], c);
      assert items == [items[0]] + items[1..];
      if items[0].contact == c then rest
      else
        var r := [items[0]] + rest;
        assert forall j :: 1 <= j < |r| ==> r[j] in items[1..];
        r
  }

  lemma HoldsMember(items: seq<Item>, c: Contact)
    ensures Holds(items, c) <==> exists x :: x in items && x.contact == c
  {
    if Holds(items, c) {
      var i :| 0 <= i < |items| && items[i].contact == c;
      assert items[i] in items;
    }
  }

  lemma WithoutHolds(items: seq<Item>, c: Contact, d: Contact)
    ensures Holds(Without(items, c), d) <==> Holds(items, d) && d != c
  {
    HoldsMember(items, d);
    HoldsMember(Without(items, c), d);
  }

  lemma HoldsAppend(items: seq<Item>, x: Item, c: Contact)
    ensures Holds(items + [x], c) <==> Holds(items, c) || x.contact == c
  {
    if Holds(items, c) {
      var i :| 0 <= i < |items| && items[i].contact == c;
      assert (items + [x])[i].contact == c;
    }
    assert (items + [x])[|items|] == x;
  }

  lemma HoldsDrop(items: seq<Item>, c: Contact)
    requires items != [] && Distinct(items)
    ensures Holds(items[1..], c) <==> Holds(items, c) && c != items[0].contact
  {
    if Holds(items, c) {
      var i :| 0 <= i < |items| && items[i].contact == c;
      if i > 0 { assert items[1..][i - 1] == items[i]; }
    }
  }

  // ---------------------------------------------------------------------------------------------
  // The queue as a map
  // ---------------------------------------------------------------------------------------------

  ghost function Times(items: seq<Item>): map<Contact, int> {
    if items == [] then map[] else Times(items[1..])[items[0].contact := items[0].inserted]
  }

  lemma {:induction false} TimesOf(items: seq<Item>, c: Contact)
    ensures c in Times(items) <==> Holds(items, c)
  {
    if items != [] {
      TimesOf(items[1..], c);
      if Holds(items, c) {
        var i :| 0 <= i < |items| && items[i].contact == c;
        if i > 0 { assert items[1..][i - 1] == items[i]; }
      }
    }
  }

  lemma {:induction false} TimesAt(items: seq<Item>, i: nat)
    requires Distinct(items) && i < |items|
    ensures items[i].contact in Times(items) && Times(items)[items[i].contact] == items[i].inserted
  {
    if i > 0 { TimesAt(items[1..], i - 1); }
  }

  lemma {:induction false} TimesSize(items: seq<Item>)
    requires Distinct(items)
    ensures |Times(items)| == |items|
  {
    if items != [] {
      TimesSize(items[1..]);
      TimesOf(items[1..], items[0].contact);
      HoldsDrop(items, items[0].contact);
      var rest := Times(items[1..]);
      assert Times(items).Keys == rest.Keys + {items[0].contact};
    }
  }

  lemma {:induction false} TimesAppend(items: seq<Item>, x: Item)
    requires !Holds(items, x.contact)
    ensures Times(items + [x]) == Times(items)[x.contact := x.inserted]
  {
    if items == [] {
      assert ([x])[1..] == [];
    } else {
      assert (items + [x])[1..] == items[1..] + [x];
      assert items[0].contact != x.contact;
      forall i | 0 <= i < |items[1..]| ensures items[1..][i].contact != x.contact {
        assert items[1..][i] == items[i + 1];
      }
      TimesAppend(items[1..], x);
    }
  }

  lemma TimesStep(x: Item, rest: seq<Item>)
    ensures Times([x] + rest) == Times(rest)[x.contact := x.inserted]
  {
    assert ([x] + rest)[1..] == rest;
  }

  lemma WithoutStep(x: Item, rest: seq<Item>, c: Contact)
    ensures Without([x] + rest, c) == if x.contact == c then Without(rest, c) else [x] + Without(rest, c)
  {
    assert ([x] + rest)[1..] == rest;
  }

  lemma UpdateMinus(m: map<Contact, int>, k: Contact, v: int, c: Contact)
    ensures k != c ==> m[k := v] - {c} == (m - {c})[k := v]
    ensures k == c ==> m[k := v] - {c} == m - {c}
  {
  }

  lemma {:induction false} TimesWithout(items: seq<Item>, c: Contact)
    ensures Times(Without(items, c)) == Times(items) - {c}
  {
    hide Without, Times;
    if items == [] {
      assert Without(items, c) == [] by { WithoutAbsent(items, c); }
      NoTimes(c);
    } else {
      var x, rest := items[0], items[1..];
      assert items == [x] + rest;
      TimesWithout(rest, c);
      WithoutStep(x, rest, c);
      TimesStep(x, rest);
      TimesStep(x, Without(rest, c));
      UpdateMinus(Times(rest), x.contact, x.inserted, c);
    }
  }

  lemma NoTimes(c: Contact)
    ensures Times([]) == Times([]) - {c}
  {
  }

  /** How many items at the head of the queue have expired. */
  function ExpiredPrefix(items: seq<Item>, now: int): (n: nat)
    ensures n <= |items| && (forall i :: 0 <= i < n ==> items[i].IsExpired(now))
    ensures n < |items| ==> !items[n].IsExpired(now)
  {
    if items == [] || !items[0].IsExpired(now) then 0 else 1 + ExpiredPrefix(items[1..], now)
  }

  /** The queue without its expired prefix. */
  function Drained(items: seq<Item>, now: int): seq<Item> {
    items[ExpiredPrefix(items, now)..]
  }

  /** No item that has expired stands behind one that has not. */
  ghost predicate ExpiredFirst(items: seq<Item>, now: int) {
    forall i, j :: 0 <= i < j < |items| && items[j].IsExpired(now) ==> items[i].IsExpired(now)
  }

  lemma LiveTimes(items: seq<Item>, now: int)
    requires Distinct(items)
    ensures Live(Times(items), now) == Times(items) <==> forall i :: 0 <= i < |items| ==> !items[i].IsExpired(now)
  {
    if forall i :: 0 <= i < |items| ==> !items[i].IsExpired(now) {
      forall c | c in Times(items) ensures now - Times(items)[c] < EXPIRATION_TIME {
        TimesOf(items, c);
        var i :| 0 <= i < |items| && items[i].contact == c;
        TimesAt(items, i);
      }
    } else {
      var i :| 0 <= i < |items| && items[i].IsExpired(now);
      TimesAt(items, i);
      assert items[i].contact !in Live(Times(items), now);
    }
  }

  lemma ExpiredHead(items: seq<Item>, now: int)
    requires Distinct(items) && items != [] && items[0].IsExpired(now)
    ensures Live(Times(items), now) == Live(Times(items[1..]), now) && Drained(items, now) == Drained(items[1..], now)
    ensures ExpiredFirst(items, now) <==> ExpiredFirst(items[1..], now)
  {
    var rest := items[1..];
    TimesOf(rest, items[0].contact);
    HoldsDrop(items, items[0].contact);
    if ExpiredFirst(rest, now) {
      forall i, j | 0 <= i < j < |items| && items[j].IsExpired(now) ensures items[i].IsExpired(now) {
        if i > 0 { assert rest[i - 1] == items[i] && rest[j - 1] == items[j]; }
      }
    }
  }

  /**
   Draining the expired prefix leaves exactly what has not expired if and only if no expired item stands
   behind one that has not.
   */
  lemma {:induction false} PrefixIsAllExpired(items: seq<Item>, now: int)
    requires Distinct(items)
    ensures Times(Drained(items, now)) == Live(Times(items), now) <==> ExpiredFirst(items, now)
  {
    hide Times, Live, Drained;
    if items == [] {
      LiveTimes(items, now);
      DrainedNothing(items, now);
    } else if items[0].IsExpired(now) {
      PrefixIsAllExpired(items[1..], now);
      ExpiredHead(items, now);
    } else {
      LiveTimes(items, now);
      DrainedNothing(items, now);
      if ExpiredFirst(items, now) {
        forall i | 0 <= i < |items| ensures !items[i].IsExpired(now) { if i > 0 { assert !items[0].IsExpired(now); } }
      }
    }
  }

  lemma DrainedNothing(items: seq<Item>, now: int)
    requires items == [] || !items[0].IsExpired(now)
    ensures Drained(items, now) == items
  {
  }

  /** A queue in the order of time has its expired items first, whatever the time. */
  lemma OrderedExpireFirst(items: seq<Item>, now: int)
    requires InOrder(items)
    ensures ExpiredFirst(items, now) && InOrder(Drained(items, now))
  {
  }

  /** If the clock has gone back, an expired contact can stay behind one that has not expired. */
  lemma ClockGoingBackKeepsExpired(a: Contact, b: Contact)
    requires a != b
    ensures var items, now := [Item(a, 1), Item(b, 0)], EXPIRATION_TIME;
            items[1].IsExpired(now) && b in Times(Drained(items, now)) && b !in Live(Times(items), now)
  {
    hide Times, Drained;
    var items := [Item(a, 1), Item(b, 0)];
    DrainedNothing(items, EXPIRATION_TIME);
    TimesAt(items, 1);
  }

  // ---------------------------------------------------------------------------------------------
  // The lists per hash
  // ---------------------------------------------------------------------------------------------

  ghost predicate Stored(storage: map<InfoHash, seq<Item>>, expires: seq<Item>) {
    && (forall h :: h in storage ==> storage[h] != [] && Filed(storage[h], h))
    && (forall c: Contact :: Listed(storage, c) <==> Holds(expires, c))
  }

  ghost predicate Filed(items: seq<Item>, h: InfoHash) {
    Distinct(items) && forall x :: x in items ==> x.contact.hash == h
  }

  ghost predicate Listed(storage: map<InfoHash, seq<Item>>, c: Contact) {
    c.hash in storage && Holds(storage[c.hash], c)
  }

  /** The contact is taken from its list, and an empty list from the map. */
  function Removed(storage: map<InfoHash, seq<Item>>, c: Contact): map<InfoHash, seq<Item>> {
    if c.hash !in storage then storage
    else
      var items := Without(storage[c.hash], c);
      if items == [] then storage - {c.hash} else storage[c.hash := items]
  }

  lemma RemovedListed(storage: map<InfoHash, seq<Item>>, c: Contact, d: Contact)
    ensures Listed(Removed(storage, c), d) <==> Listed(storage, d) && d != c
  {
    if c.hash in storage { WithoutHolds(storage[c.hash], c, d); }
  }

  lemma RemovedStored(storage: map<InfoHash, seq<Item>>, expires: seq<Item>)
    requires Stored(storage, expires) && expires != [] && Distinct(expires)
    ensures Stored(Removed(storage, expires[0].contact), expires[1..])
  {
    hide Listed, Holds;
    var r := Removed(storage, expires[0].contact);
    forall c: Contact ensures Listed(r, c) <==> Holds(expires[1..], c) {
      RemovedListed(storage, expires[0].contact, c);
      HoldsDrop(expires, c);
    }
  }

  function Pushed(storage: map<InfoHash, seq<Item>>, x: Item): map<InfoHash, seq<Item>> {
    var h := x.contact.hash;
    storage[h := (if h in storage then storage[h] else []) + [x]]
  }

  lemma PushedStored(storage: map<InfoHash, seq<Item>>, expires: seq<Item>, x: Item)
    requires Stored(storage, expires) && !Listed(storage, x.contact)
    ensures Stored(Pushed(storage, x), expires + [x])
  {
    hide Holds;
    var h := x.contact.hash;
    var items := if h in storage then storage[h] else [];
    var r := Pushed(storage, x);
    forall i | 0 <= i < |items| ensures items[i].contact != x.contact {
      HoldsMember(items, x.contact);
      assert items[i] in items;
    }
    forall c: Contact ensures Listed(r, c) <==> Holds(expires + [x], c) {
      assert Listed(storage, c) <==> Holds(expires, c);
      HoldsAppend(expires, x, c);
      HoldsAppend(items, x, c);
      HoldsMember([], c);
    }
  }

  lemma RefreshedStored(storage: map<InfoHash, seq<Item>>, expires: seq<Item>, x: Item)
    requires Stored(storage, expires) && Listed(storage, x.contact)
    ensures Stored(storage, Without(expires, x.contact) + [x])
  {
    hide Holds;
    forall c: Contact ensures Listed(storage, c) <==> Holds(Without(expires, x.contact) + [x], c) {
      HoldsAppend(Without(expires, x.contact), x, c);
      WithoutHolds(expires, x.contact, c);
    }
  }

  /** The queue after an announce: the item at its end, unless there is no room. */
  function Enqueued(expires: seq<Item>, x: Item): seq<Item> {
    if Holds(expires, x.contact) then Without(expires, x.contact) + [x]
    else if |expires| < MAX_ITEMS_STORED then expires + [x]
    else expires
  }

  ghost predicate NoneAfter(items: seq<Item>, time: int) {
    forall i :: 0 <= i < |items| ==> items[i].inserted <= time
  }

  lemma {:induction false} WithoutSize(items: seq<Item>, c: Contact)
    requires Distinct(items)
    ensures |Without(items, c)| == |items| - (if Holds(items, c) then 1 else 0)
  {
    if items != [] {
      WithoutSize(items[1..], c);
      HoldsDrop(items, c);
    }
  }

  lemma {:induction false} WithoutAbsent(items: seq<Item>, c: Contact)
    requires !Holds(items, c)
    ensures Without(items, c) == items
  {
    if items != [] {
      forall i | 0 <= i < |items[1..]| ensures items[1..][i].contact != c { assert items[1..][i] == items[i + 1]; }
      assert items[0].contact != c;
      WithoutAbsent(items[1..], c);
    }
  }

  /** Either way the item is at the end, if there is room, and nowhere else. */
  lemma EnqueuedLast(expires: seq<Item>, x: Item)
    ensures Enqueued(expires, x) ==
            if Holds(expires, x.contact) || |expires| < MAX_ITEMS_STORED
            then Without(expires, x.contact) + [x] else expires
  {
    hide Without;
    if !Holds(expires, x.contact) { WithoutAbsent(expires, x.contact); }
  }

  lemma AppendedKeeps(items: seq<Item>, x: Item)
    requires Distinct(items) && forall i :: 0 <= i < |items| ==> items[i].contact != x.contact
    ensures Distinct(items + [x])
    ensures InOrder(items) && NoneAfter(items, x.inserted) ==>
              InOrder(items + [x]) && NoneAfter(items + [x], x.inserted)
  {
  }

  /** The queue keeps one entry for each contact, and its order if the clock has not gone back. */
  lemma EnqueuedKeeps(expires: seq<Item>, x: Item)
    requires Distinct(expires) && |expires| <= MAX_ITEMS_STORED
    ensures var r := Enqueued(expires, x);
            && Distinct(r) && |r| <= MAX_ITEMS_STORED
            && (InOrder(expires) && NoneAfter(expires, x.inserted) ==> InOrder(r) && NoneAfter(r, x.inserted))
  {
    hide Without, Enqueued, Distinct, InOrder, Holds;
    var rest := Without(expires, x.contact);
    EnqueuedLast(expires, x);
    WithoutSize(expires, x.contact);
    forall i | 0 <= i < |rest| ensures rest[i].contact != x.contact && rest[i] in expires { assert rest[i] in rest; }
    AppendedKeeps(rest, x);
  }

  lemma MinusPlus(m: map<Contact, int>, c: Contact, t: int)
    ensures (m - {c})[c := t] == m[c := t]
  {
  }

  /** As a map: the contact has the new time, if it is known or there is room. */
  lemma EnqueuedTimes(expires: seq<Item>, x: Item)
    requires Distinct(expires)
    ensures HasRoom(Times(expires), x.contact) <==> Holds(expires, x.contact) || |expires| < MAX_ITEMS_STORED
    ensures Times(Enqueued(expires, x))
            == if HasRoom(Times(expires), x.contact) then Times(expires)[x.contact := x.inserted] else Times(expires)
  {
    hide Times, Without, Enqueued, Holds, Distinct;
    var rest := Without(expires, x.contact);
    TimesSize(expires);
    TimesOf(expires, x.contact);
    EnqueuedLast(expires, x);
    WithoutHolds(expires, x.contact, x.contact);
    TimesAppend(rest, x);
    TimesWithout(expires, x.contact);
    MinusPlus(Times(expires), x.contact, x.inserted);
  }

  // ---------------------------------------------------------------------------------------------
  // The object
  // ---------------------------------------------------------------------------------------------

  class AnnounceStorage {
    var storage: map<InfoHash, seq<Item>>
    var expires: seq<Item>

    /** The queue has one entry for every contact of the lists. */
    ghost predicate Valid()
      reads this
    {
      Distinct(expires) && Stored(storage, expires) && |expires| <= MAX_ITEMS_STORED
    }

    ghost function Contents(): map<Contact, int>
      reads this
    {
      Times(expires)
    }

    constructor ()
      ensures Valid() && expires == []
    {
      storage, expires := map[], [];
    }

    method Add(hash: InfoHash, address: SocketAddr, now: int, inserted: int) returns (added: bool)
      requires Valid()
      modifies this
      ensures Valid() && expires == Enqueued(Drained(old(expires), now), Item(Contact(hash, address), inserted))
      ensures added <==> Holds(expires, Contact(hash, address))
      ensures ExpiredFirst(old(expires), now) ==>
                && Contents() == Announced(old(Contents()), Contact(hash, address), now, inserted)
                && (added <==> HasRoom(Live(old(Contents()), now), Contact(hash, address)))
      ensures InOrder(old(expires)) && NoneAfter(old(expires), inserted) ==> InOrder(expires)
    {
      hide Stored, Times, Live, Distinct, InOrder, ExpiredFirst, Enqueued;
      ghost var before := expires;
      PrefixIsAllExpired(expires, now);
      if InOrder(before) { OrderedExpireFirst(before, now); }
      RemoveExpiredItems(now);
      var item := Item(Contact(hash, address), inserted);
      EnqueuedKeeps(expires, item);
      EnqueuedTimes(expires, item);
      EnqueuedCases(expires, item);
      var known := InsertContact(item);
      if known == Some(true) {
        RefreshedStored(storage, expires, item);
        expires := Without(expires, item.contact) + [item];
        added := true;
      } else if known == Some(false) {
        expires := expires + [item];
        added := true;
      } else {
        added := false;
      }
    }

    /** The addresses handed to the caller, each once. */
    method Find(hash: InfoHash, now: int) returns (found: seq<SocketAddr>)
      requires Valid()
      modifies this
      ensures Valid() && expires == Drained(old(expires), now)
      ensures ExpiredFirst(old(expires), now) ==> Contents() == Live(old(Contents()), now)
      ensures forall a :: a in found <==> Contact(hash, a) in Contents()
      ensures forall i, j :: 0 <= i < j < |found| ==> found[i] != found[j]
    {
      hide Times, Live, ExpiredFirst, Drained;
      PrefixIsAllExpired(expires, now);
      RemoveExpiredItems(now);
      found := [];
      if hash in storage {
        var items := storage[hash];
        for i := 0 to |items|
          invariant |found| == i && forall k :: 0 <= k < i ==> found[k] == items[k].contact.addr
        {
          found := found + [items[i].contact.addr];
        }
        forall k | 0 <= k < |items| ensures items[k].contact == Contact(hash, found[k]) {
          assert items[k] in items;
        }
      }
      forall a ensures a in found <==> Contact(hash, a) in Contents() {
        TimesOf(expires, Contact(hash, a));
        assert Listed(storage, Contact(hash, a)) <==> Holds(expires, Contact(hash, a));
      }
    }

    method InsertContact(item: Item) returns (r: Option<bool>)
      requires Stored(storage, expires)
      modifies this`storage
      ensures r == if Holds(expires, item.contact) then Some(true)
                   else if |expires| < MAX_ITEMS_STORED then Some(false) else None
      ensures r == Some(false) ==> Stored(storage, expires + [item])
      ensures r != Some(false) ==> storage == old(storage)
      ensures r == Some(true) ==> Listed(storage, item.contact)
    {
      var known := item.contact.hash in storage && Holds(storage[item.contact.hash], item.contact);
      assert known <==> Listed(storage, item.contact);
      if known { return Some(true); }
      if |expires| < MAX_ITEMS_STORED {
        PushedStored(storage, expires, item);
        storage := Pushed(storage, item);
        return Some(false);
      }
      return None;
    }

    method RemoveExpiredItems(now: int)
      requires Valid()
      modifies this
      ensures Valid() && expires == Drained(old(expires), now)
    {
      hide Stored;
      var n := ExpiredPrefix(expires, now);
      for i := 0 to n
        invariant expires == old(expires) && Stored(storage, expires[i..])
      {
        RemovedStored(storage, expires[i..]);
        assert expires[i..][1..] == expires[i + 1..];
        storage := Removed(storage, expires[i].contact);
      }
      expires := expires[n..];
    }
  }

  lemma EnqueuedCases(expires: seq<Item>, x: Item)
    ensures Enqueued(expires, x) == if Holds(expires, x.contact) then Without(expires, x.contact) + [x]
                                    else if |expires| < MAX_ITEMS_STORED then expires + [x] else expires
    ensures Holds(Enqueued(expires, x), x.contact) <==> Holds(expires, x.contact) || |expires| < MAX_ITEMS_STORED
  {
    HoldsAppend(expires, x, x.contact);
    HoldsAppend(Without(expires, x.contact), x, x.contact);
  }

  // ---------------------------------------------------------------------------------------------
  // Histories
  // ---------------------------------------------------------------------------------------------

  /** A search, or an announce: when it looked for expired contacts and when it was recorded. */
  datatype Event =
    | Announce(contact: Contact, now: int, inserted: int)
    | Search(now: int)
  {
    function Ends(): int {
      if Announce? then inserted else now
    }
  }

  /** The clock never goes back, neither between events nor within one. */
  ghost predicate Clocked(history: seq<Event>) {
    && (forall i :: 0 <= i < |history| ==> history[i].now <= history[i].Ends())
    && (forall i, j :: 0 <= i < j < |history| ==> history[i].Ends() <= history[j].now)
  }

  ghost function QueueAfter(history: seq<Event>): seq<Item> {
    if history == [] then []
    else
      var n := |history| - 1;
      var drained := Drained(QueueAfter(history[..n]), history[n].now);
      if history[n].Announce? then Enqueued(drained, Item(history[n].contact, history[n].inserted)) else drained
  }

  ghost function After(history: seq<Event>): map<Contact, int> {
    if history == [] then map[]
    else
      var n := |history| - 1;
      if history[n].Announce?
      then Announced(After(history[..n]), history[n].contact, history[n].now, history[n].inserted)
      else Live(After(history[..n]), history[n].now)
  }

  /** After every history of announces and searches, the queue is in order and is the map. */
  lemma {:induction false} QueueIsMap(history: seq<Event>)
    requires Clocked(history)
    ensures var q := QueueAfter(history);
            && Distinct(q) && InOrder(q) && |q| <= MAX_ITEMS_STORED && Times(q) == After(history)
            && (history != [] ==> NoneAfter(q, history[|history| - 1].Ends()))
  {
    hide Times, Live, HasRoom, Enqueued;
    if history == [] {
      NoTimesAtAll();
    } else {
      var n := |history| - 1;
      var e, q := history[n], QueueAfter(history[..n]);
      QueueIsMap(history[..n]);
      OrderedExpireFirst(q, e.now);
      PrefixIsAllExpired(q, e.now);
      assert NoneAfter(q, e.now) by { if n > 0 { assert history[..n][n - 1] == history[n - 1]; } }
      var drained := Drained(q, e.now);
      assert NoneAfter(drained, e.Ends());
      if e.Announce? {
        EnqueuedKeeps(drained, Item(e.contact, e.inserted));
        EnqueuedTimes(drained, Item(e.contact, e.inserted));
      }
    }
  }

  lemma NoTimesAtAll()
    ensures Times([]) == map[]
  {
  }

  /** When the contact was last announced successfully. */
  ghost function LastAnnounce(history: seq<Event>, c: Contact): Option<int> {
    if history == [] then None
    else
      var n := |history| - 1;
      var last := history[n];
      if last.Announce? && last.contact == c && HasRoom(Live(After(history[..n]), last.now), c) then Some(last.inserted)
      else LastAnnounce(history[..n], c)
  }

  lemma {:induction false} LiveForADay(history: seq<Event>, c: Contact, now: int)
    requires Clocked(history) && (forall i :: 0 <= i < |history| ==> history[i].Ends() <= now)
    ensures var found, last := Live(After(history), now), LastAnnounce(history, c);
            && (c in found <==> last.Some? && now - last.value < EXPIRATION_TIME)
            && (c in found ==> found[c] == last.value)
  {
    hide HasRoom;
    if history != [] {
      LiveForADay(history[..|history| - 1], c, now);
    }
  }

  /**
   Whatever the history of announces and searches, a contact is found exactly while its last accepted
   announce is less than a day old: nothing is forgotten early, and the lazy removal of expired contacts
   cannot be noticed.
   */
  lemma FoundForADay(history: seq<Event>, c: Contact, now: int)
    requires Clocked(history) && (forall i :: 0 <= i < |history| ==> history[i].Ends() <= now)
    ensures var found, last := Times(Drained(QueueAfter(history), now)), LastAnnounce(history, c);
            && (c in found <==> last.Some? && now - last.value < EXPIRATION_TIME)
            && (c in found ==> found[c] == last.value)
  {
    hide Times, Live, Drained, QueueAfter, After;
    QueueIsMap(history);
    OrderedExpireFirst(QueueAfter(history), now);
    PrefixIsAllExpired(QueueAfter(history), now);
    LiveForADay(history, c, now);
  }
}
