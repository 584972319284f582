/** The entities the data layer serves (src/domain.rs), reduced to the fields its code looks at. */
module Domain {
  import opened Wrappers
  import opened Bytes

  datatype Extrinsic = Extrinsic(
    blockNumber: nat, index: nat, hash: string, pallet: string, call: string, signed: bool, success: bool,
    payload: seq<byte>)

  datatype Transfer = Transfer(blockNumber: nat, eventIdx: nat, sender: string, recipient: string, amount: nat)

  datatype PageRequest = PageRequest(count: nat, cursor: Option<string>)

  /** `total` is always absent on the pages modelled here. */
  datatype Page<T> = Page(items: seq<T>, nextCursor: Option<string>, hasMore: bool)

  function EmptyPage<T>(): Page<T> { Page([], None, false) }
}
