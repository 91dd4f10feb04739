/**
 Leases as one table from clients to bindings: the meaning of the two indexes and the pool of
 dhcp/lease_manager.py.  Clock readings are arguments, in the order in which they are taken.
 */
module LeaseBook {
  import opened Bytes
  import opened DhcpPool

  datatype Binding = Binding(ip: Address, start: real, end: real, hostname: Option<string>)
  type Book = map<string, Binding>

  /** The range of the pool and the addresses withheld from allocation. */
  datatype Area = Area(lo: Address, hi: Address, reserved: set<int>)

  datatype LeaseError = EmptyClientId | BadDuration | NotFound | Lapsed | AlreadyLeased | Pool(error: PoolError)

  function Taken(book: Book): set<int> {
    set c | c in book :: book[c].ip
  }

  predicate Held(book: Book, ip: int) {
    exists c :: c in book && book[c].ip == ip
  }

  ghost predicate Injective(book: Book) {
    forall c, d :: c in book && d in book && book[c].ip == book[d].ip ==> c == d
  }

  /** Every lease lies in the pool, off the reserved addresses, and no two share an address. */
  ghost predicate Sound(area: Area, book: Book) {
    && Injective(book)
    && forall c :: c in book ==> Grantable(area, book[c].ip)
  }

  predicate Grantable(area: Area, ip: int) {
    area.lo <= ip <= area.hi && ip !in area.reserved
  }

  predicate Alive(book: Book, c: string, now: real) {
    c in book && now < book[c].end
  }

  /** Looking a client up removes its lease when it has lapsed. */
  function DropClient(book: Book, c: string, now: real): Book {
    if c in book && now >= book[c].end then book - {c} else book
  }

  /** Looking an address up removes the lease on it when it has lapsed. */
  function DropHolder(book: Book, ip: int, now: real): Book {
    map c | c in book && !(book[c].ip == ip && now >= book[c].end) :: book[c]
  }

  /** Removing all lapsed leases; the clock is read once for each lease. */
  function DropLapsed(book: Book, clock: string -> real): Book {
    map c | c in book && clock(c) < book[c].end :: book[c]
  }

  function Renewed(book: Book, c: string, duration: int, t0: real, t1: real): (Book, Result<Binding, LeaseError>) {
    if c == "" then (book, Err(EmptyClientId))
    else if duration <= 0 then (book, Err(BadDuration))
    else if c !in book then (book, Err(NotFound))
    else if t0 >= book[c].end then (book - {c}, Err(Lapsed))
    else
      var b := book[c].(start := t1, end := t1 + duration as real);
      (book[c := b], Ok(b))
  }

  function PoolRefusal(area: Area, ip: int): Option<PoolError> {
    if !(area.lo <= ip <= area.hi) then Some(OutsidePool)
    else if ip in area.reserved then Some(AddressReserved)
    else None
  }

  function Granted(book: Book, c: string, ip: Address, duration: int, hostname: Option<string>, now: real)
    : (Book, Result<Binding, LeaseError>)
  {
    var b := Binding(ip, now, now + duration as real, hostname);
    (book[c := b], Ok(b))
  }

  /** Binding a client without a lease to a given address. */
  function Bound(area: Area, book: Book, c: string, ip: Address, duration: int, hostname: Option<string>, t0: real,
                 t1: real)
    : (Book, Result<Binding, LeaseError>)
  {
    var b := DropHolder(book, ip, t0);
    if Held(b, ip) then (b, Err(AlreadyLeased))
    else if PoolRefusal(area, ip).Some? then (b, Err(Pool(PoolRefusal(area, ip).value)))
    else Granted(b, c, ip, duration, hostname, t1)
  }

  function CreatedAt(area: Area, book: Book, c: string, ip: Address, duration: int, hostname: Option<string>,
                     t0: real, t1: real, t2: real): (Book, Result<Binding, LeaseError>)
  {
    if c == "" then (book, Err(EmptyClientId))
    else if duration <= 0 then (book, Err(BadDuration))
    else
      var b := DropClient(book, c, t0);
      if c in b && b[c].ip == ip then Renewed(b, c, duration, t1, t2)
      else Bound(area, b - {c}, c, ip, duration, hostname, t1, t2)
  }

  function Created(area: Area, book: Book, c: string, duration: int, hostname: Option<string>, t0: real, t1: real)
    : (Book, Result<Binding, LeaseError>)
  {
    if c == "" then (book, Err(EmptyClientId))
    else if duration <= 0 then (book, Err(BadDuration))
    else
      var b := DropClient(book, c, t0);
      if c in b then (b, Ok(b[c]))
      else
        var free := LowestFree(area.lo, area.hi, Taken(b) + area.reserved);
        if free.None? then (b, Err(Pool(PoolExhausted))) else Granted(b, c, free.value, duration, hostname, t1)
  }

  lemma CreatedAtCases(area: Area, book: Book, c: string, ip: Address, duration: int, hostname: Option<string>,
                       t0: real, t1: real, t2: real)
    requires c != "" && duration > 0
    ensures var b := DropClient(book, c, t0);
            CreatedAt(area, book, c, ip, duration, hostname, t0, t1, t2)
            == if c in b && b[c].ip == ip then Renewed(b, c, duration, t1, t2)
               else Bound(area, b - {c}, c, ip, duration, hostname, t1, t2)
  {
  }

  lemma BoundCases(area: Area, book: Book, b: Book, c: string, ip: Address, duration: int, hostname: Option<string>,
                   t0: real, t1: real)
    requires b == DropHolder(book, ip, t0)
    ensures var r := Bound(area, book, c, ip, duration, hostname, t0, t1);
            if Held(b, ip) then r == (b, Err(AlreadyLeased))
            else if PoolRefusal(area, ip).Some? then r == (b, Err(Pool(PoolRefusal(area, ip).value)))
            else r == (b[c := Binding(ip, t1, t1 + duration as real, hostname)],
                       Ok(Binding(ip, t1, t1 + duration as real, hostname)))
  {
  }

  lemma MinusAbsent(book: Book, c: string)
    requires c !in book
    ensures book - {c} == book
  {
  }

  lemma MinusMore(book: Book, all: set<string>, rest: set<string>, c: string)
    requires c in rest && rest <= all
    ensures (book - (all - rest)) - {c} == book - (all - (rest - {c}))
  {
  }

  lemma MinusLapsed(book: Book, clock: string -> real, gone: set<string>)
    requires gone == set c | c in book && clock(c) >= book[c].end
    ensures book - gone == DropLapsed(book, clock)
    ensures |book - gone| + |gone| == |book|
  {
    assert book.Keys == (book - gone).Keys + gone;
  }

  // ----- what every operation keeps -----

  /** Other clients' leases are untouched, except that a lapsed one may go. */
  ghost predicate OthersKept(book: Book, book': Book, c: string, now: real) {
    && (forall d :: d in book' && d != c ==> d in book && book'[d] == book[d])
    && (forall d :: d in book && d != c && d !in book' ==> now >= book[d].end)
  }

  /** A smaller table stays sound; this covers every operation that only removes. */
  lemma SoundShrinks(area: Area, book: Book, book': Book)
    requires Sound(area, book)
    requires forall c :: c in book' ==> c in book && book'[c] == book[c]
    ensures Sound(area, book')
  {
  }

  lemma GrantKeepsSound(area: Area, book: Book, c: string, ip: Address, duration: int, hostname: Option<string>,
                        now: real)
    requires Sound(area, book) && Grantable(area, ip) && !Held(book, ip)
    ensures Sound(area, Granted(book, c, ip, duration, hostname, now).0)
  {
  }

  lemma RenewKeepsSound(area: Area, book: Book, c: string, duration: int, t0: real, t1: real)
    requires Sound(area, book)
    ensures Sound(area, Renewed(book, c, duration, t0, t1).0)
    ensures t0 <= t1 ==> OthersKept(book, Renewed(book, c, duration, t0, t1).0, c, t1)
  {
  }

  lemma BoundKeepsSound(area: Area, book: Book, c: string, ip: Address, duration: int, hostname: Option<string>,
                        t0: real, t1: real)
    requires Sound(area, book) && c !in book && t0 <= t1
    ensures var r := Bound(area, book, c, ip, duration, hostname, t0, t1);
            && Sound(area, r.0) && OthersKept(book, r.0, c, t1)
            && (r.1.Ok? ==> c in r.0 && r.0[c] == r.1.value && r.1.value.ip == ip)
            && (r.1.Err? ==> c !in r.0)
  {
    var b := DropHolder(book, ip, t0);
    SoundShrinks(area, book, b);
    if !Held(b, ip) && PoolRefusal(area, ip).None? {
      GrantKeepsSound(area, b, c, ip, duration, hostname, t1);
    }
  }

  /** Asking for an address after the client's own lease has been dealt with. */
  lemma OthersKeptTwice(book: Book, book': Book, book'': Book, c: string, t0: real, t1: real)
    requires OthersKept(book, book', c, t0) && OthersKept(book', book'', c, t1) && t0 <= t1
    ensures OthersKept(book, book'', c, t1)
  {
  }

  lemma CreatedAtKeepsSound(area: Area, book: Book, c: string, ip: Address, duration: int, hostname: Option<string>,
                            t0: real, t1: real, t2: real)
    requires Sound(area, book) && t0 <= t1 <= t2
    ensures var r := CreatedAt(area, book, c, ip, duration, hostname, t0, t1, t2);
            && Sound(area, r.0) && OthersKept(book, r.0, c, t2)
            && (r.1.Ok? ==> c in r.0 && r.0[c] == r.1.value && r.1.value.ip == ip)
  {
    var r := CreatedAt(area, book, c, ip, duration, hostname, t0, t1, t2);
    if c != "" && duration > 0 {
      var b := DropClient(book, c, t0);
      SoundShrinks(area, book, b);
      assert OthersKept(book, b, c, t0);
      if c in b && b[c].ip == ip {
        RenewKeepsSound(area, b, c, duration, t1, t2);
        OthersKeptTwice(book, b, r.0, c, t0, t2);
      } else {
        SoundShrinks(area, b, b - {c});
        assert OthersKept(book, b - {c}, c, t0);
        BoundKeepsSound(area, b - {c}, c, ip, duration, hostname, t1, t2);
        OthersKeptTwice(book, b - {c}, r.0, c, t0, t2);
      }
    }
  }

  /** Dynamic creation returns the live lease, else takes the least available address. */
  lemma CreatedKeepsSound(area: Area, book: Book, c: string, duration: int, hostname: Option<string>, t0: real,
                          t1: real)
    requires Sound(area, book) && t0 <= t1
    ensures var r := Created(area, book, c, duration, hostname, t0, t1);
            && Sound(area, r.0) && OthersKept(book, r.0, c, t1)
            && (r.1.Ok? ==> c in r.0 && r.0[c] == r.1.value)
  {
    if c != "" && duration > 0 {
      var b := DropClient(book, c, t0);
      SoundShrinks(area, book, b);
      var free := LowestFree(area.lo, area.hi, Taken(b) + area.reserved);
      if c !in b && free.Some? {
        assert forall d :: d in b ==> b[d].ip in Taken(b);
        GrantKeepsSound(area, b, c, free.value, duration, hostname, t1);
      }
    }
  }

  /**
   A failed request for a given address loses a live lease exactly when the client held one on
   another address: that lease is released before the new address is looked at.  Any other
   lease that goes has lapsed.
   */
  lemma FailedRequestLosesLiveLease(area: Area, book: Book, c: string, ip: Address, duration: int,
                                    hostname: Option<string>, t0: real, t1: real, t2: real)
    requires c != "" && duration > 0 && t0 <= t1 <= t2
    requires CreatedAt(area, book, c, ip, duration, hostname, t0, t1, t2).1.Err?
    ensures var after := CreatedAt(area, book, c, ip, duration, hostname, t0, t1, t2).0;
            && (forall d :: d in after ==> d in book && after[d] == book[d])
            && ((exists d :: d in book && d !in after && t1 < book[d].end)
                <==> Alive(book, c, t1) && book[c].ip != ip)
  {
    var after := CreatedAt(area, book, c, ip, duration, hostname, t0, t1, t2).0;
    var b := DropClient(book, c, t0);
    if c in b && b[c].ip == ip {
      assert after == b - {c};
    } else {
      FailedBinding(area, b - {c}, c, ip, duration, hostname, t1, t2);
      assert after == DropHolder(b - {c}, ip, t1);
    }
    if Alive(book, c, t1) && book[c].ip != ip {
      assert c in book && c !in after && t1 < book[c].end;
    }
  }

  lemma FailedBinding(area: Area, book: Book, c: string, ip: Address, duration: int, hostname: Option<string>,
                      t0: real, t1: real)
    requires Bound(area, book, c, ip, duration, hostname, t0, t1).1.Err?
    ensures Bound(area, book, c, ip, duration, hostname, t0, t1).0 == DropHolder(book, ip, t0)
  {
  }

  /** Two clients, one free address each: asking for the other's address costs the client its own. */
  lemma FailedRequestExample()
    ensures var area := Area(10, 11, {});
            var book := map["a" := Binding(10, 0.0, 9.0, None), "b" := Binding(11, 0.0, 9.0, None)];
            var r := CreatedAt(area, book, "a", 11, 5, None, 1.0, 1.0, 1.0);
            r.1 == Err(AlreadyLeased) && "a" in book && "a" !in r.0
  {
    var book := map["a" := Binding(10, 0.0, 9.0, None), "b" := Binding(11, 0.0, 9.0, None)];
    assert "b" in DropHolder(book - {"a"}, 11, 1.0);
  }
}
