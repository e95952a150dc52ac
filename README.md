# ipset-dns-rs in Dafny

ipset-dns-rs is a small DNS forwarder. It receives a query from a local client and relays it
to an upstream resolver. Every IPv4 (A) and IPv6 (AAAA) address in the resolver's answer is
added to a netfilter ipset; only then is the reply handed back to the client. This project
models three parts of it and proves properties about them:

- **The domain-pattern routing table** (`cli.dfy`, module `Cli`):
  - each pattern string such as `g:*.example.org`, `r:^ads\.` or `example.org` is classified
    by its prefix as a glob, a regex or an exact string;
  - a `BTreeMap<String, Vec<String>>` of set names and pattern lists is turned into a list of
    matchers by nested loops that stop at the first bad entry;
  - a lookup returns the set of set names whose matcher accepts a domain, with one table per
    address family.
- **The ipset "add element" message** (`ipset.dfy` and `ipset_types.dfy`, modules `Ipset` and
  `IpsetTypes`):
  - `add_to_ipset` checks the set-name length, then picks the address family;
  - it fills a netfilter netlink message in place: the netlink header, the nfgenmsg header,
    then the attributes PROTOCOL, SETNAME, and a DATA nest holding an IP nest holding the
    address;
  - it then goes through the open / bind / send / close steps of the kernel socket.
- **One relay cycle and the serving loop** (`relay.dfy`, module `Relay`):
  - `listen` receives a datagram into a 512-byte buffer, checks it holds at least a DNS
    header (12 bytes, the fixed header of section 4.1.1 of RFC 1035), forwards it, and
    receives the upstream reply into the same buffer;
  - it checks the reply the same way, parses it, and calls `add_to_ipset` for each A and AAAA
    answer (RFC 3596), stopping at the first failure;
  - only when every call succeeded does it send the reply back;
  - `main` is written to run this cycle forever and log each failed cycle; as shipped it
    stops before the loop (see below).

`bytes.dfy` (module `Bytes`) holds the byte type, byte strings and big-endian conversions.
`errors.dfy` (module `Errors`) holds the crate's error kinds and the `Option`/`Result` wrappers.

How the model is built:
- Strings are their UTF-8 bytes (`seq<byte>`), so a length is a byte length, as Rust's `len()`
  is.
- The `crslmnl` message builder is a class, `Ipset.Nlmsg`, whose header fields and attribute
  list its methods update. Open nests are kept on a stack, so a nest can only be ended
  innermost-first.
- `listen` is a method over a real `array` buffer that both datagrams are received into.
- The loops are methods with loop invariants:
  - `to_setname_matchers` becomes `Cli.ToSetnameMatchers`;
  - the answer loop becomes `Relay.PublishAnswers`;
  - the receive copy becomes `Relay.ReceiveInto`;
  - the serving loop becomes `Relay.Serve`.
  `ToSetnameMatchers`, `PublishAnswers` and `Serve` are proved equal to a specification
  function (`Cli.MatchersOf`, `Relay.PublicationOf`, `Relay.ListenOutcome`), and the lemmas
  state what those functions guarantee. `ReceiveInto` states the new buffer contents
  directly: the received prefix and the untouched rest.

Things visible only in the code, which the model follows:
- The name guard is `len + 1 >= IPSET_MAXNAMELEN` with `IPSET_MAXNAMELEN = 32`, both in
  `create_setname_matcher` and in `add_to_ipset`. A 31-byte name is therefore refused and 30
  bytes is the longest accepted, not 31.
- `main` reads the arguments `SETNAME`, `ipv6_setname` and `PORT`, none of which `build_cli`
  declares. It never consults the routing table: each cycle uses one set name per family.
  The model keeps exactly that. `Relay.Serve` takes the IPv4 name and the optional IPv6
  name, and the routing table is a separate module that nothing in the relay calls.
- Because `SETNAME` and `PORT` are undeclared, `value_of` returns `None` for them and the
  `.unwrap()` at `src/main.rs:30` (and the one at line 32 for `PORT`) panics: `main` as
  shipped ends before it opens a socket or reaches the loop at lines 55-62. `Relay.Serve`
  models that loop as if both names had been supplied.
- `src/errors.rs` converts I/O, DNS-parser and message errors only. The glob and regex
  compile errors that `create_setname_matcher` propagates with `?` appear in the model as
  the error kinds `InvalidGlob` and `InvalidRegex`.

## Model

| member | source | states |
|---|---|---|
| IpsetTypes.CommandAttributesNumbered | src/ipset/types.rs:18-31 | the command-level attribute ids PROTOCOL..INDEX are 1..11 in declaration order and pairwise distinct |
| IpsetTypes.AttributeAliases | src/ipset/types.rs:22-34 | SETNAME2 is TYPENAME (3), REVISION_MIN is PROTOCOL_MIN (10), IP is UNSPEC + 1 = 1 |
| IpsetTypes.AddressAttributesDistinct | src/ipset/types.rs:36-38 | the IPv4 and IPv6 address attribute ids are 1 and 2, so they differ |
| Bytes.BigEndianValue | src/ipset/mod.rs:42-47 | the integer `u32::from` / `u128::from` gives an address, read from its octets most significant first; it is below 256 to the power of the width |
| Bytes.ToBeBytes | src/ipset/mod.rs:42-49 | the bytes `to_be()` puts in memory, most significant first; there are exactly `width` of them |
| Bytes.ToBeBytesOfValue | src/ipset/mod.rs:40-51 | writing an address's integer value big-endian over its own width gives back its octets in order |
| Bytes.ValueOfToBeBytes | src/ipset/mod.rs:40-51 | the big-endian bytes of a value that fits the width read back as that value |
| Ipset.Family | src/ipset/mod.rs:20 | the family byte is AF_INET or AF_INET6, and AF_INET exactly for an IPv4 address |
| Ipset.Nlmsg.constructor | src/ipset/mod.rs:21-23 | a fresh message over a zero-filled buffer: zero type and flags, no header, no attributes, no open nest |
| Ipset.Nlmsg.PutSizedHeader | src/ipset/mod.rs:27 | reserves a zeroed nfgenmsg header and leaves the rest of the message unchanged |
| Ipset.Nlmsg.PutU8 | src/ipset/mod.rs:32 | appends a one-byte attribute at top level or to the innermost open nest, nothing else changes |
| Ipset.Nlmsg.PutStrz | src/ipset/mod.rs:33 | appends the string followed by exactly one NUL, with the same placement rule |
| Ipset.Nlmsg.NestStart | src/ipset/mod.rs:34-35 | opens an empty nest on top of the stack and returns its depth |
| Ipset.Nlmsg.Put | src/ipset/mod.rs:44-49 | appends raw payload bytes, with the same placement rule |
| Ipset.Nlmsg.NestEnd | src/ipset/mod.rs:53-54 | closes only the innermost nest and puts it into its parent, or at top level for the outermost |
| Ipset.PutAddressData | src/ipset/mod.rs:34-54 | the nested part appends exactly the DATA nest holding the IP nest holding the address attribute, with the octets in network order |
| Ipset.AddToIpset | src/ipset/mod.rs:15-76 | returns the name-guard / open / close result and sends the message `AddMessage` exactly when the name fits and the socket opened and bound |
| Ipset.PublishRejectsLongName | src/ipset/mod.rs:16-18 | a name of 31 bytes or more is refused whatever the socket does; at most 30 bytes never trips the guard |
| Ipset.PublishOutcome | src/ipset/mod.rs:64-75 | the call succeeds exactly when the name fits and open and close succeed; bind and send failures change nothing |
| Ipset.SentMessageOutcome | src/ipset/mod.rs:64-73 | the message is sent exactly when the name fits and the socket opened and bound; it can be sent while the call still fails on close |
| Ipset.AddMessageHeader | src/ipset/mod.rs:20-30 | the type carries IPSET_CMD_ADD in its low byte and the ipset subsystem in its high byte, the flags are NLM_F_REQUEST, and the nfgenmsg is (AF_INET or AF_INET6 by family, NFNETLINK_V0, 0) |
| Ipset.AddMessageAttributes | src/ipset/mod.rs:32-54 | attributes are PROTOCOL = 6, SETNAME = name + NUL, then DATA / IP / address, whose payload is the 4 or 16 address octets |
| Ipset.AddressAttrTypeFamily | src/ipset/mod.rs:37-38 | the address attribute type is the family's id OR'd with the byte-order flag; when that flag leaves the two low bits clear (`lib.nlaFNetByteorder & 3 == 0`), the IPv4 and IPv6 types differ |
| Cli.PatternMatches | src/cli.rs:91-113 | `DomainPattern::matches` for the three implementations: an exact string accepts exactly itself; globs and regexes ask their crate |
| Cli.SetnameMatcher.Matches | src/cli.rs:125-127 | a matcher accepts what its pattern accepts, whatever its set name; an exact one accepts exactly its string |
| Cli.ClassifyPattern | src/cli.rs:220-235 | `g:` gives a glob of the rest and `r:` a regex of the rest, anything else an exact string of the whole; the source is recovered from the result |
| Cli.ClassifyPatternSource | src/cli.rs:220-235 | classifying a pattern's source gives it back, except an exact string that itself starts with `g:` or `r:` |
| Cli.CreateSetnameMatcher | src/cli.rs:215-236 | too long a name fails whatever the pattern; otherwise it succeeds exactly when the classified pattern compiles, and the error is the glob's or the regex's |
| Cli.ExactMatchesIsEquality | src/cli.rs:91-100 | an exact matcher accepts a value exactly when it equals the configured string |
| Cli.BTreeMapKeysDistinct | src/cli.rs:203-205 | the keys of the configuration map, visited in strictly ascending order, are pairwise distinct |
| Cli.PairsMembership | src/cli.rs:205-211 | a (name, pattern) pair is visited exactly when the name is a key whose list holds the pattern |
| Cli.PairsInKeyOrder | src/cli.rs:205-211 | pairs are visited in map-key order: set names never decrease |
| Cli.MatchersOf | src/cli.rs:203-213 | the build succeeds exactly when every pair does, with one matcher per pair in order; a failure is the first failing pair's error |
| Cli.MatchersOfFirstFailure | src/cli.rs:209 | when pair n is the first to fail, the build fails with its error |
| Cli.ToSetnameMatchers | src/cli.rs:203-213 | the nested push loops return exactly `MatchersOf` of the map's pairs, with no partial list on error |
| Cli.EmptyPatternListUnchecked | src/cli.rs:205-211 | an entry with an empty list yields no matcher and no check of its name: removing it does not change the result |
| Cli.MatchersInKeyOrder | src/cli.rs:203-213 | the matchers of a successful build are in key order |
| Cli.ParseIpsetConfig | src/cli.rs:191-201 | IPv4 is built first and its error returned before IPv6; success exactly when both builds succeed, giving both lists |
| Cli.FindSetnames | src/cli.rs:149-154 | a name is in the result exactly when some matcher with that name accepts the value |
| Cli.FindSetnamesOrderIndependent | src/cli.rs:149-154 | matcher lists with the same members give the same result, so order and repeats do not matter |
| Cli.Config.FindSetnamesIpv4 | src/cli.rs:140-142 | a name is in the IPv4 lookup exactly when some IPv4 matcher with that name accepts the value |
| Cli.Config.FindSetnamesIpv6 | src/cli.rs:144-146 | a name is in the IPv6 lookup exactly when some IPv6 matcher with that name accepts the value |
| Cli.LookupsConsultOwnFamily | src/cli.rs:139-147 | the IPv4 lookup depends only on the IPv4 list and the IPv6 lookup only on the IPv6 list |
| Cli.FoundOnlyByOwnPattern | src/cli.rs:149-154 | a name found after a build is a key with a pattern string accepting the value |
| Cli.FoundByEveryMatchingPattern | src/cli.rs:149-154 | a key with a pattern string accepting the value is found after a successful build |
| Cli.LookupAfterBuild | src/cli.rs:203-235 | after a successful build, a name is found exactly when one of its configured pattern strings accepts the value |
| Cli.ExactRuleFound | src/cli.rs:232-234 | a built exact rule (name, domain) routes that domain to that name |
| Relay.Ipv6Setname | src/main.rs:31 | the IPv6 set name is the `ipv6_setname` argument when given, the IPv4 set name otherwise |
| Relay.Request | src/main.rs:104-108 | an A record gives a call for its IPv4 address with the IPv4 name, an AAAA record one for its IPv6 address with the IPv6 name, any other record none |
| Relay.RequestsMembership | src/main.rs:103-109 | the calls are exactly the A answers with the IPv4 name and the AAAA answers with the IPv6 name; other records give none |
| Relay.RequestsUseFamilySetname | src/main.rs:103-109 | every call uses the set name of its own family |
| Relay.DefaultIpv6UsesIpv4Name | src/main.rs:31 | without `ipv6_setname`, every call, IPv6 ones included, uses the IPv4 set name |
| Relay.FirstFailureFrom | src/main.rs:103-109 | finds the first failing call, if any: that call fails and all earlier ones succeed |
| Relay.PublicationStopsAtFirstFailure | src/main.rs:103-109 | the calls made are a prefix of the answers' calls, all but the last succeed, and the loop fails exactly when its last call failed; otherwise every call was made |
| Relay.PublishRecord | src/main.rs:104-108 | an A record is added to the IPv4 set, an AAAA record to the IPv6 set, and any other record is skipped with no call |
| Relay.PublishAnswers | src/main.rs:103-109 | the answer loop makes exactly the calls and sends exactly the messages of `PublicationOf` |
| Relay.ReceiveInto | src/main.rs:88-89 | a receive copies the datagram to the buffer's start, cut off at 512 bytes, and leaves the rest of the buffer as it was |
| Relay.Listen | src/main.rs:85-115 | one cycle over the shared buffer produces exactly `ListenOutcome` |
| Relay.ShortQueryDropped | src/main.rs:89-92 | a query shorter than 12 bytes is not forwarded, causes no call and no reply, and fails with the client short-header error |
| Relay.ShortReplyDropped | src/main.rs:96-99 | a reply shorter than 12 bytes causes no call and no reply, and the parser is not consulted |
| Relay.ForwardedQuery | src/main.rs:88-95 | what goes upstream is the client's datagram cut off at 512 bytes, at least 12 bytes long; without a forward there is neither call nor reply |
| Relay.ReplyRelayedAfterPublishing | src/main.rs:96-112 | a reply is sent back only after every A/AAAA answer in it was added successfully, and it is the upstream bytes unchanged |
| Relay.CallsStopAtFirstFailure | src/main.rs:103-112 | calls stop at the first failure, whose error is the cycle's, and then no reply is sent |
| Relay.CycleSucceeds | src/main.rs:111-114 | a cycle succeeds exactly when it relayed a reply and sending it worked |
| Relay.LongSetnamesSuppressReplies | src/main.rs:103-112 | with both set names 31 bytes or more, no reply carrying an A or AAAA answer is ever relayed |
| Relay.Serve | src/main.rs:55-62 | every cycle runs, whatever the earlier ones returned, and each one is `ListenOutcome` with the IPv6 name defaulted to the IPv4 one |

## Left out

- Glob and regex semantics and compilation (the `glob` and `regex` crates) are parameters, the fields of `Cli.Engines`; nothing is assumed about them.
- The command line (`build_cli`, its validators, the defaults in `into_config`) and reading the TOML file are left out. They are library parsing and file I/O. The map a TOML file would give is a parameter.
- The netlink byte framing inside `crslmnl` is left out. This covers attribute length and padding, `SOCKET_BUFFER_SIZE`, and the in-buffer position of the nfgenmsg. The message is an attribute tree.
- The library values `NFNL_SUBSYS_IPSET`, `NLM_F_REQUEST` and `NLA_F_NET_BYTEORDER` fill fields of `Ipset.NetlinkLib`, a parameter.
- Ipset.AddToIpset: does not model the failures of `Nlmsg::new`, `put_sized_header` and the `put*` / `nest_start` calls when the buffer is full, because that capacity is inside `crslmnl`.
- The trace dump `nlh.fprintf` and all logging are left out.
- Socket I/O is left out: the UDP and netlink sockets, address reuse, and the source address of the client.
  - `recv_from` and `recv` at `src/main.rs:89,96` block with no timeout, so a silent upstream stalls that cycle and every later one. `Relay.Environment` supposes every receive completes.
  - What each socket step does in a cycle is given as a parameter: `Relay.Environment` for UDP, and `Ipset.NetlinkSocket`, one per call, for netlink.
  - The listen socket, and the upstream address the query is sent to, are not modelled.
- DNS parsing (`dns_parser::Packet::parse`) is the parameter `parse`. It maps the received bytes to the answer records (A, AAAA or other) or to a parse failure.
- The integer value of an address is its octets read big-endian, so `to_be()` and the host byte order do not appear. On either byte order the bytes written are the octets in order.
- Relay.Serve: models a finite run of cycles; the source loops forever.
- Daemon mode (`libc::daemon`) and logging setup are left out: process-level effects.
- The `Display`, `cause` and conversion code of `src/errors.rs` is left out. The error kinds are a datatype.
