// Raw pointers of the library, reduced to what the code does with them:
// compare them with each other and with null, and follow them.

module Pointers {

  /** An object pointer (`_class*` for a delegate's target, `void*` for user data):
      null, or the identity of one object the library does not own. */
  datatype Ptr = Null | Addr(id: nat)

  /** A pointer to member function: null, or the identity of one method of the target's class. */
  datatype MethodPtr = NullMethod | MethodAddr(id: nat)
}
