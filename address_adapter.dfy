/**
  The address adapter (adapter/address_adapter.go): up to two calls to the remote
  address service, a pause after each failed call, and a fixed fallback address with no
  error once both calls have failed.
*/
module AddressAdapter {
  import opened Wrappers

  /** Address: the id and the text the remote service reports for a meter. */
  datatype Address = Address(id: int, address: string)

  /** The fallback address (id 0). Its text holds the bytes of "ó" read as two Latin-1 characters. */
  const MockAddress: Address := Address(0, "Direcci\U{00C3}\U{00B3}n Mock")

  /** The number of calls to the remote service before falling back. */
  const MaxAttempts: nat := 2

  /** The pause after a failed call, in nanoseconds (2 seconds). */
  const RetryPause: nat := 2_000_000_000

  /**
    The outcome of the remote call (callAddressService) for a meter on its n-th attempt,
    counting from 0. The HTTP request and the JSON decoding behind it are not modelled.
  */
  type Remote = (int, nat) -> Result<Address, string>

  /** The attempts the loop makes: up to and including the first success, at most two. */
  function AttemptsMade(callAddressService: Remote, meterId: int): (n: nat)
    ensures 1 <= n <= MaxAttempts
    ensures n == 2 <==> callAddressService(meterId, 0).Err?
  {
    if callAddressService(meterId, 0).Ok? then 1 else 2
  }

  /** The failed attempts among those made. */
  function FailuresSeen(callAddressService: Remote, meterId: int): (n: nat)
    ensures n <= AttemptsMade(callAddressService, meterId)
    ensures n == AttemptsMade(callAddressService, meterId) <==>
      callAddressService(meterId, 0).Err? && callAddressService(meterId, 1).Err?
  {
    if callAddressService(meterId, 0).Ok? then 0
    else if callAddressService(meterId, 1).Ok? then 1
    else 2
  }

  /** The address GetAddress settles on: the first successful call's, else the fallback. */
  function Resolved(callAddressService: Remote, meterId: int): Address
  {
    if callAddressService(meterId, 0).Ok? then callAddressService(meterId, 0).value
    else if callAddressService(meterId, 1).Ok? then callAddressService(meterId, 1).value
    else MockAddress
  }

  /**
    GetAddress. `calls` counts the remote calls and `slept` the total pause, both ghost:
    the Go code only performs them.
  */
  method GetAddress(meterId: int, callAddressService: Remote)
    returns (address: Address, err: Option<string>, ghost calls: nat, ghost slept: nat)
    ensures err == None
    ensures address == Resolved(callAddressService, meterId)
    ensures calls == AttemptsMade(callAddressService, meterId)
    ensures slept == RetryPause * FailuresSeen(callAddressService, meterId)
    ensures callAddressService(meterId, 0).Ok? ==> address == callAddressService(meterId, 0).value
    ensures callAddressService(meterId, 0).Err? && callAddressService(meterId, 1).Ok? ==>
      address == callAddressService(meterId, 1).value
    ensures callAddressService(meterId, 0).Err? && callAddressService(meterId, 1).Err? ==>
      address == MockAddress
  {
    address := Address(0, "");
    var lastErr: Option<string> := None;
    calls, slept := 0, 0;
    var attempts: nat := 0;
    while attempts < MaxAttempts
      invariant attempts <= MaxAttempts
      invariant calls == attempts && slept == RetryPause * attempts
      invariant forall j :: 0 <= j < attempts ==> callAddressService(meterId, j).Err?
      invariant attempts == 0 <==> lastErr == None
    {
      var outcome := callAddressService(meterId, attempts);
      calls := calls + 1;
      match outcome {
        case Ok(found) =>
          return found, None, calls, slept;
        case Err(e) =>
          address, lastErr := Address(0, ""), Some(e);
      }
      slept := slept + RetryPause;
      attempts := attempts + 1;
    }
    match lastErr {
      case Some(_) =>
        return MockAddress, None, calls, slept;
      case None =>
        assert false;
        return Address(0, ""), lastErr, calls, slept;
    }
  }
}
