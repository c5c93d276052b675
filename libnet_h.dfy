// Channel and message bookkeeping of the library header: addresses, per-channel
// user-data slots, the base network message and its compile-time identity.

module LibNet {
  import opened Pointers
  import opened SmallDelegate

  /** `net_slot_t`: an unsigned 16-bit slot index. */
  const NetSlotBits := 16
  type NetSlot = x: int | 0 <= x < 0x1_0000

  /** `unsigned short`. */
  type U16 = x: int | 0 <= x < 0x1_0000

  /** `char`, as the address buffer stores it: signed on the usual targets. */
  type Byte = x: int | -0x80 <= x < 0x80

  const AddressBytes := 32
  const UserdataSlots := 8

  /** `net_address::NA_TYPE`, in declaration order (`NA_NONE` is 0). */
  datatype AddressType = NaNone | NaIp | NaBroadcast | NaLoopback

  /** A peer endpoint: its kind, a 32-byte address buffer and a port. */
  class NetAddress {
    var kind: AddressType
    const addr: array<Byte>
    var port: U16

    /** A fresh address has no kind, port 0 and an all-zero buffer. */
    constructor ()
      ensures kind == NaNone && port == 0
      ensures fresh(addr) && addr.Length == AddressBytes
      ensures forall i :: 0 <= i < addr.Length ==> addr[i] == 0
    {
      kind := NaNone;
      addr := new Byte[AddressBytes](_ => 0);
      port := 0;
    }
  }

  /** Per-channel data: the peer address and eight opaque user-data slots. */
  class ChannelData {
    const address: NetAddress
    const userdata: array<Ptr>

    ghost predicate Valid()
      reads this
    {
      userdata.Length == UserdataSlots
    }

    /** A fresh channel has a default address and every user-data slot null. */
    constructor ()
      ensures Valid() && fresh(userdata) && fresh(address) && fresh(address.addr)
      ensures address.kind == NaNone && address.port == 0
      ensures address.addr.Length == AddressBytes
      ensures forall i :: 0 <= i < AddressBytes ==> address.addr[i] == 0
      ensures forall i :: 0 <= i < UserdataSlots ==> userdata[i] == Null
    {
      address := new NetAddress();
      userdata := new Ptr[UserdataSlots](_ => Null);
    }

    /** The pointer stored in slot `idx`; the index must name one of the eight slots. */
    function GetUserdata(idx: int): (p: Ptr)
      reads this, userdata
      requires Valid() && 0 <= idx < UserdataSlots
      ensures p == userdata[idx]
    {
      userdata[idx]
    }

    /** Stores `p` in slot `idx`; every other slot keeps its pointer. */
    method SetUserdata(idx: int, p: Ptr)
      requires Valid() && 0 <= idx < UserdataSlots
      modifies userdata
      ensures Valid() && GetUserdata(idx) == p
      ensures forall i :: 0 <= i < UserdataSlots && i != idx ==> GetUserdata(i) == old(GetUserdata(i))
    {
      userdata[idx] := p;
    }
  }

  /** The base of every network message. Its reliability flag is private and is set
      to true on construction; nothing assigns it afterwards, so it is a constant. */
  class NetworkMessageBase {
    const reliable := true

    constructor ()
      ensures IsReliable()
    {
    }

    /** `is_reliable`: every message reports itself reliable. */
    function IsReliable(): (r: bool)
      ensures r
    {
      reliable
    }

    /** Self-dispatch: the handler delegate must be bound; it is called exactly once,
        with this message as its argument, and its result is returned. */
    method Handle(d: ScDelegate, call: Dispatch<NetworkMessageBase, bool>)
      returns (r: bool, ghost calls: seq<Call<NetworkMessageBase>>)
      requires d.IsValid()
      ensures calls == [d.Value().CallWith(this)]
      ensures r == d.Value().ResultOf(this, call)
    {
      r, calls := d.Invoke(this, call);
    }
  }

  /** The identity helper of a concrete message type: the id is fixed when the type is. */
  class MessageHelper {
    const id: int

    constructor (id: int)
      ensures GetId() == id
    {
      this.id := id;
    }

    /** `get_id`: the id depends on nothing the object could change. */
    function GetId(): (r: int)
      ensures r == id
    {
      id
    }
  }

  /** The id the example message type is declared with. */
  const NetMsgExampleId := 0

  /** The example message: a base message and an identity helper (its two base
      classes) plus one integer payload field. */
  class NetMsgExample {
    const base: NetworkMessageBase
    const helper: MessageHelper
    var field1: int

    constructor ()
      ensures fresh(base) && base.IsReliable()
      ensures helper.GetId() == NetMsgExampleId
      ensures field1 == 0
    {
      base := new NetworkMessageBase();
      helper := new MessageHelper(NetMsgExampleId);
      field1 := 0;
    }
  }
}
