/** Intrinsic gas of a message: the loop over the data and the guarded uint64 arithmetic,
    against the true integer cost. */
module Intrinsic {
  import opened Words
  import opened World

  const TX_GAS := 21000
  const TX_GAS_CONTRACT_CREATION := 53000
  const TX_DATA_NON_ZERO_GAS_FRONTIER := 68
  const TX_DATA_NON_ZERO_GAS_EIP2028 := 16
  const TX_DATA_ZERO_GAS := 4
  const INIT_CODE_WORD_GAS := 2
  const TX_ACCESS_LIST_ADDRESS_GAS := 2400
  const TX_ACCESS_LIST_STORAGE_KEY_GAS := 1900

  datatype AccessTuple = AccessTuple(address: Address, storageKeys: seq<nat>)

  function NonZeroBytes(data: seq<byte>): (n: nat)
    ensures n <= |data|
  {
    if data == [] then 0
    else NonZeroBytes(data[..|data| - 1]) + (if data[|data| - 1] != 0 then 1 else 0)
  }

  function StorageKeyCount(al: seq<AccessTuple>): nat {
    if al == [] then 0
    else StorageKeyCount(al[..|al| - 1]) + |al[|al| - 1].storageKeys|
  }

  /** Cost of the message without its access list, over unbounded integers. */
  function DataCost(data: seq<byte>, create: bool, homestead: bool, eip2028: bool, eip3860: bool): nat {
    (if create && homestead then TX_GAS_CONTRACT_CREATION else TX_GAS)
    + (if eip2028 then NonZeroBytes(data) * TX_DATA_NON_ZERO_GAS_EIP2028
       else NonZeroBytes(data) * TX_DATA_NON_ZERO_GAS_FRONTIER)
    + (|data| - NonZeroBytes(data)) * TX_DATA_ZERO_GAS
    + (if create && eip3860 then CeilWords(|data|) * INIT_CODE_WORD_GAS else 0)
  }

  function AccessListCost(al: Option<seq<AccessTuple>>): nat {
    match al
    case None => 0
    case Some(l) => |l| * TX_ACCESS_LIST_ADDRESS_GAS + StorageKeyCount(l) * TX_ACCESS_LIST_STORAGE_KEY_GAS
  }

  /** None stands for ErrGasUintOverflow. Only the additions for the access list are unchecked. */
  function IntrinsicCost(data: seq<byte>, al: Option<seq<AccessTuple>>, create: bool, homestead: bool,
                         eip2028: bool, eip3860: bool): Option<uint64>
  {
    var cost := DataCost(data, create, homestead, eip2028, eip3860);
    if cost > MAX_UINT64 then None else Some(Wrap64(cost + AccessListCost(al)))
  }

  lemma GuardIsExact(room: nat, price: nat, n: nat)
    requires price > 0
    ensures room / price < n <==> n * price > room
  {
    var q, r := room / price, room % price;
    assert room == q * price + r;
    if q < n {
      MulMono(price, q + 1, n);
    } else {
      MulMono(price, n, q);
    }
  }

  /** The guard `(MaxUint64-gas)/price < n` that precedes each addition, and the addition. */
  method AddPriced(gas: uint64, n: uint64, price: nat) returns (r: Option<uint64>)
    requires price > 0
    ensures r == if gas + n * price > MAX_UINT64 then None else Some(gas + n * price)
  {
    GuardIsExact(MAX_UINT64 - gas, price, n);
    if (MAX_UINT64 - gas) / price < n {
      return None;
    }
    r := Some(gas + n * price);
  }

  method StorageKeys(al: seq<AccessTuple>) returns (sum: nat)
    ensures sum == StorageKeyCount(al)
  {
    sum := 0;
    for i := 0 to |al|
      invariant sum == StorageKeyCount(al[..i])
    {
      assert al[..i + 1][..i] == al[..i];
      sum := sum + |al[i].storageKeys|;
    }
    assert al[..|al|] == al;
  }

  /** The additions without an overflow check. */
  method ChargeAccessList(gas: uint64, al: Option<seq<AccessTuple>>) returns (r: uint64)
    ensures r == Wrap64(gas + AccessListCost(al))
  {
    r := gas;
    if al.Some? {
      ghost var addresses := |al.value| * TX_ACCESS_LIST_ADDRESS_GAS;
      ghost var slots := StorageKeyCount(al.value) * TX_ACCESS_LIST_STORAGE_KEY_GAS;
      var addressGas := Wrap64(Wrap64(|al.value|) * TX_ACCESS_LIST_ADDRESS_GAS);
      assert addressGas == Wrap64(addresses) by { WrapProduct(|al.value|, TX_ACCESS_LIST_ADDRESS_GAS); }
      r := Wrap64(r + addressGas);
      var keys := StorageKeys(al.value);
      var keyGas := Wrap64(Wrap64(keys) * TX_ACCESS_LIST_STORAGE_KEY_GAS);
      assert keyGas == Wrap64(slots) by { WrapProduct(keys, TX_ACCESS_LIST_STORAGE_KEY_GAS); }
      r := Wrap64(r + keyGas);
      assert AccessListCost(al) == addresses + slots;
      WrapSums(gas, addresses, addressGas, slots, keyGas);
    }
  }

  lemma CostDecides(data: seq<byte>, al: Option<seq<AccessTuple>>, create: bool, homestead: bool,
                    eip2028: bool, eip3860: bool, cost: nat)
    requires cost == DataCost(data, create, homestead, eip2028, eip3860)
    ensures IntrinsicCost(data, al, create, homestead, eip2028, eip3860)
         == if cost > MAX_UINT64 then None else Some(Wrap64(cost + AccessListCost(al)))
  {
  }

  method IntrinsicGas(data: seq<byte>, al: Option<seq<AccessTuple>>, create: bool, homestead: bool,
                      eip2028: bool, eip3860: bool)
    returns (r: Option<uint64>)
    requires |data| < U64
    ensures r == IntrinsicCost(data, al, create, homestead, eip2028, eip3860)
  {
    ghost var cost := DataCost(data, create, homestead, eip2028, eip3860);
    CostDecides(data, al, create, homestead, eip2028, eip3860, cost);
    var gas: uint64 := if create && homestead then TX_GAS_CONTRACT_CREATION else TX_GAS;
    var dataLen: uint64 := |data|;
    if dataLen > 0 {
      var nz := 0;
      for i := 0 to |data|
        invariant nz == NonZeroBytes(data[..i])
      {
        assert data[..i + 1][..i] == data[..i];
        if data[i] != 0 {
          nz := nz + 1;
        }
      }
      assert data[..|data|] == data;
      var nonZeroGas := if eip2028 then TX_DATA_NON_ZERO_GAS_EIP2028 else TX_DATA_NON_ZERO_GAS_FRONTIER;
      var sum := AddPriced(gas, nz, nonZeroGas);
      if sum.None? { return None; }
      sum := AddPriced(sum.value, dataLen - nz, TX_DATA_ZERO_GAS);
      if sum.None? { return None; }
      if create && eip3860 {
        sum := AddPriced(sum.value, ToWordSize(dataLen), INIT_CODE_WORD_GAS);
        if sum.None? { return None; }
      }
      gas := sum.value;
    }
    assert gas == cost;
    var total := ChargeAccessList(gas, al);
    r := Some(total);
  }

  /** Exactly when the charge is the true cost: when no unchecked addition wraps. */
  lemma ChargeIsTrueCostIff(data: seq<byte>, al: Option<seq<AccessTuple>>, create: bool, homestead: bool,
                            eip2028: bool, eip3860: bool)
    ensures var charged := IntrinsicCost(data, al, create, homestead, eip2028, eip3860);
            var cost := DataCost(data, create, homestead, eip2028, eip3860) + AccessListCost(al);
            (charged == Some(cost) <==> cost <= MAX_UINT64)
            && (charged.Some? ==> charged.value <= cost)
  {
    var cost := DataCost(data, create, homestead, eip2028, eip3860) + AccessListCost(al);
    assert Wrap64(cost) <= cost;
  }

  /** An access list that wraps: a tuple with this many keys is charged next to nothing. */
  lemma LongAccessListIsUndercharged()
    ensures var keys := seq(9708812670373449, i => 0);
            IntrinsicCost([], Some([AccessTuple(0, keys)]), false, true, true, true) == Some(24884)
  {
    var tuple := AccessTuple(0, seq(9708812670373449, i => 0));
    assert StorageKeyCount([tuple]) == 9708812670373449 by { assert [tuple][..0] == []; }
    assert AccessListCost(Some([tuple])) == 2400 + 9708812670373449 * 1900;
    assert DataCost([], false, true, true, true) == 21000;
    WrapShift(21000 + 2400 + 9708812670373449 * 1900 - U64, 1);
  }

  lemma WordBegins(n: nat)
    ensures CeilWords(n + 1) == CeilWords(n) + (if n % 32 == 0 then 1 else 0)
  {
  }

  /** What each further byte of data costs: four if it is zero, else sixteen under EIP-2028 and
      sixty-eight before, and in an EIP-3860 creation two more for each word begun. */
  lemma ByteCosts(data: seq<byte>, b: byte, create: bool, homestead: bool, eip2028: bool, eip3860: bool)
    ensures DataCost(data + [b], create, homestead, eip2028, eip3860)
         == DataCost(data, create, homestead, eip2028, eip3860)
            + (if b == 0 then 4 else if eip2028 then 16 else 68)
            + (if create && eip3860 && |data| % 32 == 0 then 2 else 0)
    ensures DataCost([], create, homestead, eip2028, eip3860) == if create && homestead then 53000 else 21000
  {
    assert (data + [b])[..|data|] == data;
    WordBegins(|data|);
  }

  /** No data shorter than 2^57 bytes can trip the overflow error. */
  lemma OverflowNeedsHugeData(data: seq<byte>, al: Option<seq<AccessTuple>>, create: bool, homestead: bool,
                              eip2028: bool, eip3860: bool)
    requires |data| < 0x200_0000_0000_0000
    ensures IntrinsicCost(data, al, create, homestead, eip2028, eip3860).Some?
  {
    var n := NonZeroBytes(data);
    assert n * TX_DATA_NON_ZERO_GAS_FRONTIER + (|data| - n) * TX_DATA_ZERO_GAS <= |data| * 68;
    assert CeilWords(|data|) <= |data|;
  }

  /** The intrinsic gas of a message, byte by byte: it is what the bytes cost on top of the base price. */
  lemma OneMoreByte(data: seq<byte>, b: byte, create: bool, homestead: bool, eip2028: bool, eip3860: bool)
    requires |data| < 0x1FF_FFFF_FFFF_FFFF
    ensures var before := IntrinsicCost(data, None, create, homestead, eip2028, eip3860);
            var after := IntrinsicCost(data + [b], None, create, homestead, eip2028, eip3860);
            && before.Some? && after.Some?
            && after.value == before.value + (if b == 0 then 4 else if eip2028 then 16 else 68)
                              + (if create && eip3860 && |data| % 32 == 0 then 2 else 0)
    ensures IntrinsicCost([], None, create, homestead, eip2028, eip3860)
         == Some(if create && homestead then 53000 else 21000)
  {
    ByteCosts(data, b, create, homestead, eip2028, eip3860);
    OverflowNeedsHugeData(data, None, create, homestead, eip2028, eip3860);
    OverflowNeedsHugeData(data + [b], None, create, homestead, eip2028, eip3860);
  }

  lemma TupleCosts(al: seq<AccessTuple>, t: AccessTuple)
    ensures AccessListCost(Some(al + [t])) == AccessListCost(Some(al)) + 2400 + 1900 * |t.storageKeys|
    ensures AccessListCost(Some([])) == 0 && AccessListCost(None) == 0
  {
    assert (al + [t])[..|al|] == al;
  }

  lemma TupleAddsToCharge(cost: nat, al: seq<AccessTuple>, t: AccessTuple)
    ensures Wrap64(cost + AccessListCost(Some(al + [t])))
         == Wrap64(Wrap64(cost + AccessListCost(Some(al))) + (2400 + 1900 * |t.storageKeys|))
  {
    TupleCosts(al, t);
    WrapSum(2400 + 1900 * |t.storageKeys|, cost + AccessListCost(Some(al)));
  }

  /** What each further tuple of the access list adds, as far as a word holds it. */
  lemma OneMoreTuple(data: seq<byte>, al: seq<AccessTuple>, t: AccessTuple, create: bool, homestead: bool,
                     eip2028: bool, eip3860: bool)
    requires |data| < 0x200_0000_0000_0000
    ensures var before := IntrinsicCost(data, Some(al), create, homestead, eip2028, eip3860);
            var after := IntrinsicCost(data, Some(al + [t]), create, homestead, eip2028, eip3860);
            && before.Some? && after.Some?
            && after.value == Wrap64(before.value + (2400 + 1900 * |t.storageKeys|))
  {
    var cost := DataCost(data, create, homestead, eip2028, eip3860);
    CostDecides(data, Some(al), create, homestead, eip2028, eip3860, cost);
    CostDecides(data, Some(al + [t]), create, homestead, eip2028, eip3860, cost);
    OverflowNeedsHugeData(data, Some(al), create, homestead, eip2028, eip3860);
    TupleAddsToCharge(cost, al, t);
  }

  /** An access list without tuples costs nothing. */
  lemma EmptyListIsFree(data: seq<byte>, create: bool, homestead: bool, eip2028: bool, eip3860: bool)
    ensures IntrinsicCost(data, Some([]), create, homestead, eip2028, eip3860)
         == IntrinsicCost(data, None, create, homestead, eip2028, eip3860)
  {
  }
}
