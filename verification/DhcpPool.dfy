/** The address pool (dhcp/pool.py). */
module DhcpPool {
  import opened Bytes

  datatype PoolError = BadRange | OutsidePool | AlreadyAllocated | AddressReserved | PoolExhausted

  function Range(lo: int, hi: int): (r: set<int>)
    ensures forall a :: a in r <==> lo <= a <= hi
    decreases hi + 1 - lo
  {
    if lo > hi then {} else Range(lo, hi - 1) + {hi}
  }

  lemma {:induction false} RangeSize(lo: int, hi: int)
    requires lo <= hi + 1
    ensures |Range(lo, hi)| == hi - lo + 1
    decreases hi + 1 - lo
  {
    if lo > hi {
    } else {
      RangeSize(lo, hi - 1);
    }
  }

  /** Scanning upwards from `lo`, the first address that is not taken. */
  function LowestFree(lo: int, hi: int, taken: set<int>): (r: Option<int>)
    ensures r.Some? ==> lo <= r.value <= hi && r.value !in taken
    ensures r.Some? ==> forall a :: lo <= a <= hi && a !in taken ==> r.value <= a
    ensures r.None? ==> forall a :: lo <= a <= hi ==> a in taken
    decreases hi + 1 - lo
  {
    if lo > hi then None
    else if lo !in taken then Some(lo)
    else LowestFree(lo + 1, hi, taken)
  }

  predicate Ascending(s: seq<int>) {
    forall i, j :: 0 <= i < j < |s| ==> s[i] < s[j]
  }

  /** The free addresses from `lo` up to `hi`, in increasing order. */
  function FreeUpTo(lo: int, hi: int, taken: set<int>): seq<int>
    decreases hi + 1 - lo
  {
    if hi < lo then [] else FreeUpTo(lo, hi - 1, taken) + if hi in taken then [] else [hi]
  }

  lemma {:induction false} FreeUpToNext(lo: int, hi: int, taken: set<int>)
    requires lo <= hi + 1
    ensures FreeUpTo(lo, hi, taken)
            == if hi < lo then [] else FreeUpTo(lo, hi - 1, taken) + if hi in taken then [] else [hi]
  {
  }

  lemma {:induction false} FreeUpToListsFree(lo: int, hi: int, taken: set<int>)
    ensures forall a :: a in FreeUpTo(lo, hi, taken) <==> lo <= a <= hi && a !in taken
    ensures Ascending(FreeUpTo(lo, hi, taken))
    decreases hi + 1 - lo
  {
    if lo > hi {
    } else {
      FreeUpToListsFree(lo, hi - 1, taken);
      var before := FreeUpTo(lo, hi - 1, taken);
      assert forall i :: 0 <= i < |before| ==> before[i] in before;
    }
  }

  lemma {:induction false} FreeUpToCounts(lo: int, hi: int, taken: set<int>)
    ensures |FreeUpTo(lo, hi, taken)| == |Range(lo, hi) - taken|
    decreases hi + 1 - lo
  {
    if lo > hi {
    } else {
      FreeUpToCounts(lo, hi - 1, taken);
      FreeUpToNext(lo, hi, taken);
      RangeNext(lo, hi, taken);
      hide FreeUpTo, Range;
    }
  }

  lemma {:induction false} RangeNext(lo: int, hi: int, taken: set<int>)
    requires lo <= hi
    ensures |Range(lo, hi) - taken| == |Range(lo, hi - 1) - taken| + if hi in taken then 0 else 1
  {
    if hi in taken {
      assert Range(lo, hi) - taken == Range(lo, hi - 1) - taken;
    } else {
      assert Range(lo, hi) - taken == (Range(lo, hi - 1) - taken) + {hi};
    }
  }

  lemma FreeUpToIsAvailable(lo: int, hi: int, a: set<int>, b: set<int>)
    ensures forall x :: x in FreeUpTo(lo, hi, a + b) <==> x in Range(lo, hi) - a - b
    ensures Ascending(FreeUpTo(lo, hi, a + b))
    ensures |FreeUpTo(lo, hi, a + b)| == |Range(lo, hi) - a - b|
  {
    FreeUpToListsFree(lo, hi, a + b);
    FreeUpToCounts(lo, hi, a + b);
    assert Range(lo, hi) - a - b == Range(lo, hi) - (a + b);
  }

  class DHCPAddressPool {
    const start: Address
    const end: Address
    var leased: set<int>
    var reserved: set<int>

    ghost predicate Valid()
      reads this
    {
      && 0 <= start <= end < 0x1_0000_0000
      && leased <= Range(start, end) && reserved <= Range(start, end)
      && leased !! reserved
    }

    ghost function Available(): set<int>
      reads this
    {
      Range(start, end) - leased - reserved
    }

    constructor (start: int, end: int)
      requires 0 <= start <= end < 0x1_0000_0000
      ensures Valid() && leased == {} && reserved == {}
      ensures this.start == start && this.end == end
    {
      this.start, this.end := start, end;
      leased, reserved := {}, {};
    }

    static method Create(start: int, end: int) returns (r: Result<DHCPAddressPool, PoolError>)
      requires 0 <= start < 0x1_0000_0000 && 0 <= end < 0x1_0000_0000
      ensures r == Err(BadRange) <==> start > end
      ensures r.Ok? ==> fresh(r.value) && r.value.Valid() && r.value.Available() == Range(start, end)
    {
      if start > end {
        return Err(BadRange);
      }
      var pool := new DHCPAddressPool(start, end);
      return Ok(pool);
    }

    predicate Contains(address: int) {
      start <= address <= end
    }

    method Reserve(address: int) returns (r: Option<PoolError>)
      requires Valid()
      modifies this`reserved
      ensures Valid()
      ensures r == if !Contains(address) then Some(OutsidePool)
                   else if address in leased then Some(AlreadyAllocated) else None
      ensures reserved == old(reserved) + if r.None? then {address} else {}
    {
      if !Contains(address) {
        return Some(OutsidePool);
      }
      if address in leased {
        return Some(AlreadyAllocated);
      }
      reserved := reserved + {address};
      return None;
    }

    method Unreserve(address: int)
      requires Valid()
      modifies this`reserved
      ensures Valid() && reserved == old(reserved) - {address}
    {
      reserved := reserved - {address};
    }

    /** The least available address is handed out; there is none exactly when nothing is available. */
    method Allocate() returns (r: Result<int, PoolError>)
      requires Valid()
      modifies this`leased
      ensures Valid()
      ensures r.Ok? ==> r.value in old(Available()) && forall a :: a in old(Available()) ==> r.value <= a
      ensures r.Ok? ==> leased == old(leased) + {r.value} && Available() == old(Available()) - {r.value}
      ensures r.Err? ==> old(Available()) == {} && r.error == PoolExhausted && leased == old(leased)
      ensures old(LowestFree(start, end, leased + reserved)) == if r.Ok? then Some(r.value) else None
    {
      var current := start;
      while current <= end
        invariant start <= current <= end + 1
        invariant forall a :: start <= a < current ==> a in leased || a in reserved
        invariant leased == old(leased)
        invariant LowestFree(start, end, leased + reserved) == LowestFree(current, end, leased + reserved)
      {
        if current !in leased && current !in reserved {
          leased := leased + {current};
          return Ok(current);
        }
        current := current + 1;
      }
      return Err(PoolExhausted);
    }

    method AllocateSpecific(address: int) returns (r: Result<int, PoolError>)
      requires Valid()
      modifies this`leased
      ensures Valid()
      ensures r == if !Contains(address) then Err(OutsidePool)
                   else if address in old(reserved) then Err(AddressReserved)
                   else if address in old(leased) then Err(AlreadyAllocated)
                   else Ok(address)
      ensures r.Ok? <==> address in old(Available())
      ensures leased == old(leased) + if r.Ok? then {address} else {}
    {
      if !Contains(address) {
        return Err(OutsidePool);
      }
      if address in reserved {
        return Err(AddressReserved);
      }
      if address in leased {
        return Err(AlreadyAllocated);
      }
      leased := leased + {address};
      return Ok(address);
    }

    method Release(address: int) returns (released: bool)
      requires Valid()
      modifies this`leased
      ensures Valid()
      ensures released == (address in old(leased)) && leased == old(leased) - {address}
    {
      if address !in leased {
        return false;
      }
      leased := leased - {address};
      return true;
    }

    /** The subtraction never goes below zero, so the count is the number of available addresses. */
    method AvailableCount() returns (n: int)
      requires Valid()
      ensures n == |Available()|
    {
      var total := end - start + 1;
      var unavailable := |leased| + |reserved|;
      RangeSize(start, end);
      assert |leased + reserved| == unavailable;
      assert Available() == Range(start, end) - (leased + reserved);
      assert |Available()| == total - unavailable;
      n := if total - unavailable > 0 then total - unavailable else 0;
    }

    /** Scanning the range upwards. */
    method ScanFree() returns (addresses: seq<int>)
      requires Valid()
      ensures addresses == FreeUpTo(start, end, leased + reserved)
    {
      ghost var taken := leased + reserved;
      FreeUpToNext(start, start - 1, taken);
      hide FreeUpTo, Range;
      addresses := [];
      var current := start;
      while current <= end
        invariant start <= current <= end + 1
        invariant addresses == FreeUpTo(start, current - 1, taken)
      {
        FreeUpToNext(start, current, taken);
        if current !in leased && current !in reserved {
          addresses := addresses + [current];
        } else {
          assert addresses + [] == addresses;
        }
        current := current + 1;
      }
    }

    /** All available addresses, each once, in increasing order. */
    method AvailableAddresses() returns (addresses: seq<int>)
      requires Valid()
      ensures forall a :: a in addresses <==> a in Available()
      ensures Ascending(addresses)
      ensures |addresses| == |Available()|
    {
      addresses := ScanFree();
      FreeUpToIsAvailable(start, end, leased, reserved);
      hide FreeUpTo, Range, Ascending;
    }
  }
}
