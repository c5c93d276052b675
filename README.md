# libnet delegates and message bookkeeping, in Dafny

This project models the callback machinery of libnet, the skeleton of a network-message
dispatch layer, and the small pieces of channel and message bookkeeping built on it.

- **Single-cast delegate** (`small_sc_delegate`): a (method, target) pointer pair.
  `SmallDelegate.ScDelegate` is the object whose two pointers `set_method` and `bind`
  rewrite in place. `SmallDelegate.Binding` is its value, the copy that a multicast
  delegate stores. A delegate is valid when both pointers are non-null. Two delegates
  compare equal when both pointers are equal. Invoking calls the method on the target
  once and returns that call's result; an unbound delegate may not be invoked.
- **Multicast delegate** (`small_mc_delegate`): `SmallDelegate.McDelegate` holds the
  vector of bindings as a `seq<Binding>`. `Add` appends. `Remove` scans for the first
  equal entry, unbinds it, erases it and reports whether it found one. `Invoke` calls
  every entry in index order and returns the last result, or the value-initialised
  result when the vector is empty.
- **Channel and messages** (`libnet.h`, module `LibNet`): a network address, a channel's
  eight user-data slots, the base message with its reliability flag and its self-dispatch
  `handle`, the identity helper and the example message.
- **Slot count** (`libnet.cpp`, module `LibNetUtils`): `pow_ct` on 32-bit unsigned
  integers, wrapping at 2^32, and `max_network_slots`, which is 2^16 = 65536 because a
  slot index is 16 bits wide.

Pointers are opaque identities with a distinguished null (`Pointers.Ptr`,
`Pointers.MethodPtr`). Handler code lies outside the library. A call is therefore
described by a function parameter `call: (target, method, args) -> result`, and every
invocation returns a ghost trace of the `Call` records it made. That trace is how
"called exactly once, in this order" is stated.

Where the source and its evident intent differ:

- `libnet/libnet/smalldelegate.h:81` writes `it.bind(nullptr, nullptr)` on an iterator.
  That line would not compile once `remove` is instantiated. A second obstacle is
  `operator==` (`libnet/libnet/smalldelegate.h:46`): it takes a non-const reference,
  while `std::find` compares each entry with a const value. The model does what is
  meant: it unbinds the entry the iterator points at and then erases it. The unbinding
  cannot be observed afterwards, because the erased entry is no longer in the vector.
- `netmsg_example` inherits `get_id` from `cnetmessage_helper`. That base is not
  derived from `inetworkmessage`, so its `get_id` does not override the pure virtual
  one, and `write`, `read` and `string_info` are not defined either. As written, the
  class cannot be instantiated. The model keeps the state its constructor sets up.
  Its two base classes become two component objects, because the model has no
  inheritance.

## Model

| member | source | states |
|---|---|---|
| `SmallDelegate.Binding.CompareTo` | libnet/libnet/smalldelegate.h:43-45 | two delegate values compare equal exactly when both method and target are equal, that is, when they are the same pair |
| `SmallDelegate.Binding.IsValid` | libnet/libnet/smalldelegate.h:29 | a delegate value is valid exactly when neither its method nor its target is null |
| `SmallDelegate.ScDelegate.IsValid` | libnet/libnet/smalldelegate.h:29-30 | `is_valid` and `operator bool` are true exactly when neither pointer of the object is null |
| `SmallDelegate.ScDelegate.constructor` | libnet/libnet/smalldelegate.h:25 | a default-constructed delegate has both pointers null and is not valid |
| `SmallDelegate.ScDelegate.FromMethod` | libnet/libnet/smalldelegate.h:26 | a delegate built from a method alone keeps that method and a null target, and is not valid |
| `SmallDelegate.ScDelegate.Bound` | libnet/libnet/smalldelegate.h:27 | a delegate built from a target and a method holds both, and is valid exactly when neither is null |
| `SmallDelegate.ScDelegate.SetMethod` | libnet/libnet/smalldelegate.h:32 | only the method changes; the target is kept |
| `SmallDelegate.ScDelegate.BindTarget` | libnet/libnet/smalldelegate.h:33 | only the target changes; the method is kept |
| `SmallDelegate.ScDelegate.Bind` | libnet/libnet/smalldelegate.h:34-37 | both halves are set to the given target and method |
| `SmallDelegate.ScDelegate.Invoke` | libnet/libnet/smalldelegate.h:39-41 | requires a valid delegate; makes exactly one call, of the bound method on the bound target with the given arguments, and returns that call's result |
| `SmallDelegate.ScDelegate.CompareTo` | libnet/libnet/smalldelegate.h:43-46 | `compare_to` and `operator==` are true exactly when both pointers are equal |
| `SmallDelegate.ScDelegate.Differs` | libnet/libnet/smalldelegate.h:47 | `operator!=` is true exactly when some pointer differs |
| `SmallDelegate.CompareToIsEquivalence` | libnet/libnet/smalldelegate.h:43-47 | comparison is reflexive, symmetric and transitive, and `!=` is its negation |
| `SmallDelegate.Calls` | libnet/libnet/smalldelegate.h:94-100 | invoking a list makes one call per entry, the i-th call being the i-th entry's |
| `SmallDelegate.Broadcast` | libnet/libnet/smalldelegate.h:94-100 | the loop that overwrites its result returns the starting value on an empty list and the last entry's result otherwise |
| `SmallDelegate.AddedIsCalledLast` | libnet/libnet/smalldelegate.h:65-73 | an appended delegate is called after all earlier ones, and its result is what the invocation returns |
| `SmallDelegate.Find` | libnet/libnet/smalldelegate.h:78 | the index found is that of the first entry equal to the delegate, or the end of the vector exactly when no entry equals it |
| `SmallDelegate.EraseAt` | libnet/libnet/smalldelegate.h:82 | erasing one position shortens the vector by one and shifts later entries down, keeping their order |
| `SmallDelegate.RemoveFirst` | libnet/libnet/smalldelegate.h:75-87 | removal changes nothing when no entry is equal, and otherwise shortens the list by exactly one |
| `SmallDelegate.RemoveFirstSpec` | libnet/libnet/smalldelegate.h:75-87 | when an entry is equal, removal takes out exactly the first equal entry, removes one occurrence from the multiset, and keeps the order of the rest |
| `SmallDelegate.RemoveUndoesAdd` | libnet/libnet/smalldelegate.h:65-87 | removing a delegate just appended to a list that did not hold it restores the list |
| `SmallDelegate.RemoveKeepsCallOrder` | libnet/libnet/smalldelegate.h:75-100 | after a removal, the remaining delegates are called in their old order, with only the removed entry's call missing |
| `SmallDelegate.ThreeHandlers` | libnet/libnet/smalldelegate.h:89-100 | with three handlers added in order, they are called in that order and the third result is returned; after removing the second, the first and third are called and the third result is returned |
| `SmallDelegate.McDelegate.constructor` | libnet/libnet/smalldelegate.h:62 | a new multicast delegate holds no entries |
| `SmallDelegate.McDelegate.IsEmpty` | libnet/libnet/smalldelegate.h:63 | true exactly when there are no entries |
| `SmallDelegate.McDelegate.DelegateAt` | libnet/libnet/smalldelegate.h:64 | `gelegate_at` and `operator[]` need an index below the size and return the entry stored there |
| `SmallDelegate.McDelegate.Add` | libnet/libnet/smalldelegate.h:65-73 | `add` and `+=` append the delegate after every earlier entry and return true; when allocation fails, they return false and change nothing |
| `SmallDelegate.McDelegate.Remove` | libnet/libnet/smalldelegate.h:75-87 | `remove` and `-=` return true exactly when some entry is equal, and leave the list with the first such entry removed, or unchanged |
| `SmallDelegate.McDelegate.Invoke` | libnet/libnet/smalldelegate.h:94-100 | requires every entry valid; makes exactly the calls of `Calls`, in index order, and returns the overwritten result of the loop, `Broadcast`, which is the last entry's result or the default |
| `LibNet.NetAddress.constructor` | libnet/libnet/libnet.h:58-61 | a fresh address has type `NA_NONE`, port 0 and all 32 address bytes zero |
| `LibNet.ChannelData.constructor` | libnet/libnet/libnet.h:76-82 | a fresh channel has a default-constructed address (type `NA_NONE`, port 0, 32 zero bytes) and all eight user-data slots null |
| `LibNet.ChannelData.GetUserdata` | libnet/libnet/libnet.h:83 | needs an index in 0..7 and returns the pointer stored in that slot |
| `LibNet.ChannelData.SetUserdata` | libnet/libnet/libnet.h:84 | needs an index in 0..7; afterwards that slot reads back the given pointer and every other slot is unchanged |
| `LibNet.NetworkMessageBase.constructor` | libnet/libnet/libnet.h:122-123 | a fresh message is reliable |
| `LibNet.NetworkMessageBase.IsReliable` | libnet/libnet/libnet.h:120-123 | every message reports itself reliable: the flag is set to true on construction and nothing assigns it |
| `LibNet.NetworkMessageBase.Handle` | libnet/libnet/libnet.h:124-127 | requires a valid handler delegate; calls it exactly once with the message itself and returns its result |
| `LibNet.MessageHelper.constructor` | libnet/libnet/libnet.h:130-136 | the helper's `get_id` returns the id its type was declared with |
| `LibNet.MessageHelper.GetId` | libnet/libnet/libnet.h:136 | `get_id` returns the helper's fixed id and depends on no mutable state |
| `LibNet.NetMsgExample.constructor` | libnet/libnet/libnet.h:144-148 | a fresh example message is reliable, has id 0 and `m_field1 == 0` |
| `LibNetUtils.PowCt` | libnet/libnet/libnet.cpp:16-17 | the wrapping recursion on `uint32_t` yields base^exp modulo 2^32 for every base and exponent |
| `LibNetUtils.MaxNetworkSlotsValue` | libnet/libnet/libnet.cpp:21 | `max_network_slots` is 2^16 = 65536 |
| `LibNetUtils.SlotBelowMax` | libnet/libnet/libnet.h:21 | every 16-bit slot index is below `max_network_slots` |

## Left out

- `SmallDelegate.ScDelegate.Invoke`, `SmallDelegate.McDelegate.Invoke` and
  `LibNet.NetworkMessageBase.Handle` require every delegate they call to be bound. In the
  source, calling through a null pointer is undefined behaviour in `operator()`. In
  `handle` it is an `assert` that aborts in debug builds and is compiled out under
  `NDEBUG`. The model does not describe either outcome.
- Handler side effects: a call is modelled by the result it returns. What a handler does
  to its own object, or to the delegates while they are being invoked, is not modelled.
  The class is documented as thread-unsafe, so only single-threaded use is modelled.
- `SmallDelegate.McDelegate.DelegateAt` returns the stored value. The C++ returns a
  mutable reference into the vector, and writing through that reference is not modelled.
- `SmallDelegate.McDelegate.Add`: whether `push_back` can allocate comes from the
  allocator, outside the model. It is a parameter, and the exception is not modelled.
- Template parameters: target and method types become opaque identities, and the
  argument and result types become type parameters. `_ret_type()` is passed in as `zero`.
- `net_initialize`, `net_deinitialize` and `net_socket` (libnet.cpp): platform socket
  calls only.
- `ichannel` and `ilibnet`: interfaces without bodies. Registration tables and send paths
  are not implemented, so nothing about them is modelled.
- `inetworkmessage::write`, `read`, `name` and `string_info`: abstract, or the RTTI type
  name, which is implementation-defined.
- `channel_data::m_avg_bytes_per_sec`: a float that nothing updates.
- `netlib.h` holds declarations only. The test program's `pow_ct`
  (`libnet/libnet_tests/main.cpp:5-8`) is identical to the one in `libnet.cpp`, which is
  the one modelled.
