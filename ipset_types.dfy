/** The ipset protocol constants of src/ipset/types.rs (from the kernel's ip_set.h). */
module IpsetTypes {
  import opened Bytes

  /** Protocol version. */
  const IPSET_PROTOCOL: byte := 6

  /** Maximal length of set and type names, counting the terminating NUL. */
  const IPSET_MAXNAMELEN: nat := 32

  /** Command: add an element to a set. */
  const IPSET_CMD_ADD: bv16 := 9

  // Attributes at command level
  const IPSET_ATTR_UNSPEC: bv16 := 0
  const IPSET_ATTR_PROTOCOL: bv16 := 1
  const IPSET_ATTR_SETNAME: bv16 := 2
  const IPSET_ATTR_TYPENAME: bv16 := 3
  const IPSET_ATTR_SETNAME2: bv16 := IPSET_ATTR_TYPENAME
  const IPSET_ATTR_REVISION: bv16 := 4
  const IPSET_ATTR_FAMILY: bv16 := 5
  const IPSET_ATTR_FLAGS: bv16 := 6
  const IPSET_ATTR_DATA: bv16 := 7
  const IPSET_ATTR_ADT: bv16 := 8
  const IPSET_ATTR_LINENO: bv16 := 9
  const IPSET_ATTR_PROTOCOL_MIN: bv16 := 10
  const IPSET_ATTR_REVISION_MIN: bv16 := IPSET_ATTR_PROTOCOL_MIN
  const IPSET_ATTR_INDEX: bv16 := 11

  // CADT specific attributes
  const IPSET_ATTR_IP: bv16 := IPSET_ATTR_UNSPEC + 1

  // IP specific attributes
  const IPSET_ATTR_IPADDR_IPV4: bv16 := IPSET_ATTR_UNSPEC + 1
  const IPSET_ATTR_IPADDR_IPV6: bv16 := 2

  /** The command-level attribute ids without their aliases, in declaration order. */
  function CommandAttributes(): (ids: seq<bv16>)
    ensures |ids| == 11
  {
    [IPSET_ATTR_PROTOCOL, IPSET_ATTR_SETNAME, IPSET_ATTR_TYPENAME, IPSET_ATTR_REVISION,
     IPSET_ATTR_FAMILY, IPSET_ATTR_FLAGS, IPSET_ATTR_DATA, IPSET_ATTR_ADT,
     IPSET_ATTR_LINENO, IPSET_ATTR_PROTOCOL_MIN, IPSET_ATTR_INDEX]
  }

  /** The command-level ids are numbered 1 to 11 in order, so no two of them coincide. */
  lemma CommandAttributesNumbered()
    ensures forall k :: 0 <= k < 11 ==> CommandAttributes()[k] as int == k + 1
    ensures forall j, k :: 0 <= j < k < 11 ==> CommandAttributes()[j] != CommandAttributes()[k]
  {
  }

  /** The aliases name the same attribute as the id they stand for. */
  lemma AttributeAliases()
    ensures IPSET_ATTR_SETNAME2 == IPSET_ATTR_TYPENAME == 3
    ensures IPSET_ATTR_REVISION_MIN == IPSET_ATTR_PROTOCOL_MIN == 10
    ensures IPSET_ATTR_IP == 1
  {
  }

  /** The two address attribute types differ, so the type identifies the family. */
  lemma AddressAttributesDistinct()
    ensures IPSET_ATTR_IPADDR_IPV4 == 1 && IPSET_ATTR_IPADDR_IPV6 == 2
    ensures IPSET_ATTR_IPADDR_IPV4 != IPSET_ATTR_IPADDR_IPV6
  {
  }
}
