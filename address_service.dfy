/**
  The cache-aside address lookup (services/address_service.go): read the cache under
  "address-<id>", on a miss ask the adapter and store its answer for 24 hours, and wrap
  every error with a message naming the step that failed.
*/
module AddressService {
  import opened Wrappers
  import opened Decimal
  import opened Cache
  import opened AddressAdapter

  /** One hour in nanoseconds, the unit of cache instants. */
  const Hour: int := 3_600_000_000_000

  /** The time an adapter answer stays in the cache. */
  const AddressTtl: int := 24 * Hour

  const GetFailed: string := "error al obtener la direcci\U{00F3}n desde la cach\U{00E9}: "
  const StoreFailed: string := "error al almacenar la direcci\U{00F3}n en la cach\U{00E9}: "
  const AdapterFailed: string := "no se pudo obtener la direcci\U{00F3}n despu\U{00E9}s de varios intentos: "

  /** The cache key of a meter, "address-%d". */
  function CacheKey(meterId: int): (key: string)
    ensures |key| > 8 && key[..8] == "address-"
    ensures key[8..] == IntToString(meterId)
  {
    "address-" + IntToString(meterId)
  }

  /** Different meters never share a cache entry. */
  lemma CacheKeyInjective(a: int, b: int)
    requires CacheKey(a) == CacheKey(b)
    ensures a == b
  {
    assert CacheKey(a)[8..] == CacheKey(b)[8..];
    IntToStringInjective(a, b);
  }

  /** The key can be read back: the text after the prefix parses to the meter id. */
  lemma CacheKeyRoundTrip(meterId: int)
    ensures ParseInt(CacheKey(meterId)[8..]) == Some(meterId)
  {
    IntToStringRoundTrip(meterId);
  }

  // ---------------------------------------------------------------- against any cache

  /** What a cache Get can answer: a hit, a miss, or an error (possible for other Cache implementations). */
  datatype CacheRead = Hit(address: Address) | Miss | ReadFailed(error: string)

  /** The arguments of the one cache Set the lookup may make. */
  datatype StoreCall = StoreCall(key: string, address: Address, ttl: int)

  /** The result of a lookup, with what it did to its collaborators. */
  datatype Outcome = Outcome(address: Option<Address>, err: Option<string>, adapterCalled: bool, stored: Option<StoreCall>)

  /** The (value, found, err) triple of a cache Get, as a CacheRead. */
  function ReadOf(value: Option<Address>, err: Option<string>): CacheRead
  {
    match err
    case Some(e) => ReadFailed(e)
    case None => if value.Some? then Hit(value.value) else Miss
  }

  /**
    GetAddress followed by getAddressAdapter, given the cache's answer to Get, the
    adapter's answer and the cache's answer to Set; each is consulted only when the
    Go code reaches the call.
  */
  function Lookup(meterId: int, read: CacheRead, adapterReply: Result<Address, string>, storeErr: Option<string>): Outcome
  {
    match read
    case ReadFailed(e) => Outcome(None, Some(GetFailed + e), false, None)
    case Hit(a) => Outcome(Some(a), None, false, None)
    case Miss =>
      match adapterReply
      case Err(e) => Outcome(None, Some(AdapterFailed + e), true, None)
      case Ok(a) =>
        var call := StoreCall(CacheKey(meterId), a, AddressTtl);
        match storeErr
        case Some(e) => Outcome(None, Some(StoreFailed + e), true, Some(call))
        case None => Outcome(Some(a), None, true, Some(call))
  }

  /** Exactly one of an address and an error comes back; the adapter runs only on a miss; a store follows only an adapter success, under the meter's key for 24 hours. */
  lemma LookupShape(meterId: int, read: CacheRead, adapterReply: Result<Address, string>, storeErr: Option<string>)
    ensures var o := Lookup(meterId, read, adapterReply, storeErr);
      && (o.address.Some? <==> o.err.None?)
      && (o.adapterCalled <==> read.Miss?)
      && (o.stored.Some? <==> read.Miss? && adapterReply.Ok?)
      && (o.stored.Some? ==> o.stored.value == StoreCall(CacheKey(meterId), adapterReply.value, AddressTtl))
      && (o.address.Some? && read.Miss? ==> o.stored.Some? && o.address.value == o.stored.value.address)
  {
  }

  /** A hit returns the cached address, with no adapter call and no store. */
  lemma HitReturnsCached(meterId: int, a: Address, adapterReply: Result<Address, string>, storeErr: Option<string>)
    ensures Lookup(meterId, Hit(a), adapterReply, storeErr) == Outcome(Some(a), None, false, None)
  {
  }

  /** A failing cache read is reported with its own message; nothing else happens. */
  lemma ReadErrorIsWrapped(meterId: int, e: string, adapterReply: Result<Address, string>, storeErr: Option<string>)
    ensures Lookup(meterId, ReadFailed(e), adapterReply, storeErr) == Outcome(None, Some(GetFailed + e), false, None)
  {
  }

  /** A miss and an adapter success store exactly (key, address, 24h) and return the address. */
  lemma MissStoresForADay(meterId: int, a: Address)
    ensures Lookup(meterId, Miss, Ok(a), None)
      == Outcome(Some(a), None, true, Some(StoreCall(CacheKey(meterId), a, 24 * Hour)))
  {
  }

  /** A failing store turns the adapter's answer into an error. */
  lemma StoreErrorIsWrapped(meterId: int, a: Address, e: string)
    ensures Lookup(meterId, Miss, Ok(a), Some(e)).address == None
    ensures Lookup(meterId, Miss, Ok(a), Some(e)).err == Some(StoreFailed + e)
  {
  }

  /** An adapter error is wrapped and nothing is stored. */
  lemma AdapterErrorIsWrapped(meterId: int, e: string, storeErr: Option<string>)
    ensures Lookup(meterId, Miss, Err(e), storeErr) == Outcome(None, Some(AdapterFailed + e), true, None)
  {
  }

  lemma SmallKeys()
    ensures CacheKey(1) == "address-1" && CacheKey(2) == "address-2" && CacheKey(3) == "address-3"
    ensures CacheKey(4) == "address-4" && CacheKey(5) == "address-5"
  {
    assert IntToString(1) == "1" && IntToString(2) == "2" && IntToString(3) == "3";
    assert IntToString(4) == "4" && IntToString(5) == "5";
  }

  /** Joining a message prefix and an error text gives the expected message. */
  lemma Wrapped(prefix: string, e: string, message: string)
    requires |prefix| + |e| == |message|
    requires forall i :: 0 <= i < |message| ==> message[i] == if i < |prefix| then prefix[i] else e[i - |prefix|]
    ensures prefix + e == message
  {
  }

  /** Test "Success: Get address from cache": meter 1 hits under "address-1". */
  lemma TestHitFromCache(adapterReply: Result<Address, string>, storeErr: Option<string>)
    ensures CacheKey(1) == "address-1"
    ensures Lookup(1, Hit(Address(1, "Main St")), adapterReply, storeErr)
      == Outcome(Some(Address(1, "Main St")), None, false, None)
  {
    SmallKeys();
  }

  /** Test "Success: Get address from adapter and store in cache": Set("address-2", address, 24h). */
  lemma TestMissStores()
    ensures Lookup(2, Miss, Ok(Address(2, "Main St")), None)
      == Outcome(Some(Address(2, "Main St")), None, true, Some(StoreCall("address-2", Address(2, "Main St"), AddressTtl)))
  {
    SmallKeys();
  }

  /** Test "Error: Get address from cache fails". */
  lemma TestReadError(adapterReply: Result<Address, string>, storeErr: Option<string>)
    ensures Lookup(3, ReadFailed("cache error"), adapterReply, storeErr)
      == Outcome(None, Some("error al obtener la direcci\U{00F3}n desde la cach\U{00E9}: cache error"), false, None)
  {
    Wrapped(GetFailed, "cache error", "error al obtener la direcci\U{00F3}n desde la cach\U{00E9}: cache error");
  }

  /** Test "Error: Get address from adapter fails". */
  lemma TestAdapterError(storeErr: Option<string>)
    ensures Lookup(4, Miss, Err("adapter error"), storeErr)
      == Outcome(None, Some("no se pudo obtener la direcci\U{00F3}n despu\U{00E9}s de varios intentos: adapter error"), true, None)
  {
    Wrapped(AdapterFailed, "adapter error",
      "no se pudo obtener la direcci\U{00F3}n despu\U{00E9}s de varios intentos: adapter error");
  }

  /** Test "Error: Cache store fails": the Set under "address-5" was made, and its error is reported. */
  lemma TestStoreError()
    ensures Lookup(5, Miss, Ok(Address(2, "Main St")), Some("cache store error"))
      == Outcome(None, Some("error al almacenar la direcci\U{00F3}n en la cach\U{00E9}: cache store error"), true,
                 Some(StoreCall("address-5", Address(2, "Main St"), AddressTtl)))
  {
    SmallKeys();
    Wrapped(StoreFailed, "cache store error",
      "error al almacenar la direcci\U{00F3}n en la cach\U{00E9}: cache store error");
  }

  /**
    With the real adapter, which never reports an error, a miss always stores: when
    both remote calls fail it is the fallback address that is stored for 24 hours.
    The adapter reply Ok(Resolved(...)) is what AddressAdapter.GetAddress returns (its
    ensures give err == None and address == Resolved(...)); GetAddressAdapter below
    composes the two.
  */
  lemma FallbackIsCached(meterId: int, callAddressService: Remote, storeErr: Option<string>)
    requires callAddressService(meterId, 0).Err? && callAddressService(meterId, 1).Err?
    ensures Lookup(meterId, Miss, Ok(Resolved(callAddressService, meterId)), storeErr).stored
      == Some(StoreCall(CacheKey(meterId), MockAddress, AddressTtl))
  {
  }

  // ---------------------------------------------------------------- with the program's own collaborators

  /**
    GetAddress with the in-memory cache and the retrying adapter. Get runs at `getNow`
    and Set at `setNow` (after the adapter's calls and pauses).
  */
  method GetAddress(cache: MemoryCache<Address>, meterId: int, getNow: int, setNow: int, callAddressService: Remote)
    returns (address: Option<Address>, err: Option<string>)
    requires cache.Valid()
    modifies cache
    ensures var o := Lookup(meterId, ReadOf(Found(old(cache.Snapshot()), CacheKey(meterId), getNow), None),
                            Ok(Resolved(callAddressService, meterId)), None);
      && address == o.address && err == o.err
      && cache.Snapshot() == match o.stored
        case None => AfterGet(old(cache.Snapshot()), CacheKey(meterId), getNow)
        case Some(call) => AfterSet(AfterGet(old(cache.Snapshot()), CacheKey(meterId), getNow),
                                    call.key, call.address, setNow, call.ttl)
    ensures cache.Valid()
  {
    var cacheKey := CacheKey(meterId);
    var cached, getErr := cache.Get(cacheKey, getNow);
    match getErr {
      case Some(e) =>
        return None, Some(GetFailed + e);
      case None =>
    }
    match cached {
      case Some(a) =>
        return Some(a), None;
      case None =>
    }
    address, err := GetAddressAdapter(cache, meterId, setNow, callAddressService);
  }

  /** getAddressAdapter: ask the adapter, then store its answer under the meter's key. */
  method GetAddressAdapter(cache: MemoryCache<Address>, meterId: int, setNow: int, callAddressService: Remote)
    returns (address: Option<Address>, err: Option<string>)
    requires cache.Valid()
    modifies cache
    ensures var o := Lookup(meterId, Miss, Ok(Resolved(callAddressService, meterId)), None);
      && address == o.address && err == o.err
      && address == Some(Resolved(callAddressService, meterId))
      && cache.Snapshot() == AfterSet(old(cache.Snapshot()), CacheKey(meterId), address.value, setNow, AddressTtl)
    ensures cache.Valid()
  {
    var found, adapterErr;
    ghost var calls, slept;
    found, adapterErr, calls, slept := AddressAdapter.GetAddress(meterId, callAddressService);
    match adapterErr {
      case None =>
        var cacheKey := CacheKey(meterId);
        var setErr := cache.Set(cacheKey, found, setNow, AddressTtl);
        match setErr {
          case Some(e) =>
            return None, Some(StoreFailed + e);
          case None =>
        }
        return Some(found), None;
      case Some(e) =>
        return None, Some(AdapterFailed + e);
    }
  }

  /**
    After a miss, the answer the lookup returned (the fallback included) is what the
    cache returns for the meter's key until 24 hours after the store.
  */
  lemma MissIsServedFromCacheForADay(before: State<Address>, meterId: int, getNow: int, setNow: int,
                                     callAddressService: Remote, t: int)
    requires Coherent(before)
    requires Found(before, CacheKey(meterId), getNow) == None
    requires t <= setNow + AddressTtl
    ensures var after := AfterSet(AfterGet(before, CacheKey(meterId), getNow), CacheKey(meterId),
                                  Resolved(callAddressService, meterId), setNow, AddressTtl);
      Found(after, CacheKey(meterId), t) == Some(Resolved(callAddressService, meterId))
  {
    SetThenGet(AfterGet(before, CacheKey(meterId), getNow), CacheKey(meterId),
               Resolved(callAddressService, meterId), setNow, AddressTtl, t);
  }
}
