# blockadjust, modelled in Dafny

blockadjust reads a list of IPv4 and IPv6 network blocks (CIDR prefixes) and
rewrites them so that:
- no host is in more than one block;
- every most-specific block is kept verbatim.

A block that has another input block strictly inside it is replaced by the
blocks that fill it around that inner block. Those blocks come from halving
it again and again, and the outer block itself is dropped.

The program does this with a prefix trie (py-radix's `Radix`):
1. It loads every block into the trie.
2. It visits the stored blocks from least to most specific.
3. When a block has a stored strict subnet (`has_subnet`), it splits the
   block (`generate_subnets`) and then deletes it.
4. It returns the trie's prefixes in trie order.

The project is organised as follows:

- `prefix.dfy` (`IpPrefix`): the block model.
  - A prefix is an address family, an address and a length.
  - It is canonical when its host bits are zero and it fits the family's width.
  - Containment (`Covers`, `StrictSubnet`) and overlap are stated on address ranges.
  - `Halves` models netaddr's `subnet(len + 1)`; `Supernets` models netaddr's `supernet()`.
- `radix.dfy` (`RadixTrie`): the trie's observable behaviour, as a class.
  - Its entries are kept in the trie's enumeration order: family, then address, then length.
  - It has add (refusing unparsable prefixes and zeroing host bits), delete,
    exact search, covered search and the prefix listing.
- `subnets.dfy` (`SubnetSpec`): what `has_subnet` answers (`HasStrictSubnet`)
  and what `generate_subnets` adds (`Gen`), as functions of the stored set.
  It also proves what those additions are.
- `adjust_spec.dfy` (`AdjustSpec`): the set `adjust` returns (`Adjusted`) and
  the properties the program's description promises for it.
- `blockadjust.dfy` (`BlockAdjust`): `has_subnet`, `generate_subnets` and
  `adjust` as methods over a `Radix`. Each is proved against the functions above.
- `blocks.dfy` (`BlockTokens`): `get_blocks` and `read_blocks_from_args`.
  They split the BLOCKS argument at commas, strip each piece, and drop blank pieces.
- `scenarios.dfy` (`Scenarios`): the worked examples of the program's
  docstrings and of its unit tests. For each example, a lemma proves its
  `Outcome`: the expected list is in trie order and holds exactly the adjusted
  set. A method named after the example with `Adjusted` appended then calls
  `Adjust` on its networks. Through `OutcomeIsResult`, its `ensures` states that
  the list `Adjust` returns is the expected one.

## Model

| member | source | states |
|---|---|---|
| BlockAdjust.Adjust | blockadjust.py:54-84 | The result is in trie order, holds only canonical blocks, and its set is exactly `Adjusted(Accepted(networks))`: the accepted inputs after handling each from shortest to longest. |
| BlockAdjust.HasSubnet | blockadjust.py:86-109 | The answer is true exactly when the trie stores a prefix strictly inside `network`; a stored copy of `network` itself does not count. |
| BlockAdjust.GenerateSubnets | blockadjust.py:111-140 | The trie gains exactly `Gen(old contents, network)` and loses nothing. At the family's width it adds nothing. |
| BlockAdjust.HandleSubnet | blockadjust.py:127-140 | Handling one half: a stored half adds nothing; a half with nothing stored strictly inside it is added; any other half is split. The trie gains exactly `GenChild`. |
| BlockAdjust.SortByPrefixLen | blockadjust.py:73-74 | The result is a permutation of the trie's nodes, sorted by prefix length. Nodes of equal length stay in trie order, the order the stable sort keeps. |
| BlockAdjust.AcceptedSnoc | blockadjust.py:64-68 | Offering one more network to the trie adds its canonical form when it parses, and nothing otherwise. |
| BlockAdjust.AcceptedOfElements | blockadjust.py:64-68 | Two lists holding the same networks are accepted as the same set. |
| BlockAdjust.AdjustReordered | blockadjust.py:54-84 | `adjust` on any reordering of the same networks returns the same list. |
| BlockAdjust.AdjustTwice | blockadjust.py:54-84 | `adjust` on the list it returned gives back that list unchanged. |
| BlockAdjust.SortedPrefixBefore | blockadjust.py:75 | In the length-sorted node list, every node before position `i` is distinct from the `i`-th node and no longer than it. |
| RadixTrie.Radix.constructor | blockadjust.py:63 | A new trie is empty. |
| RadixTrie.Radix.Add | blockadjust.py:66 | Add succeeds exactly when the prefix parses. On success the contents gain its canonical form (host bits zeroed); on failure (ValueError) the contents are unchanged. |
| RadixTrie.Radix.Insert | blockadjust.py:138 | Inserting a canonical prefix adds it to the contents and keeps the enumeration order. |
| RadixTrie.Radix.Delete | blockadjust.py:82 | `found` is true exactly when the prefix was stored (otherwise KeyError); afterwards the contents are the old contents without it. |
| RadixTrie.Radix.SearchExact | blockadjust.py:131 | True exactly when the prefix is stored. |
| RadixTrie.Radix.SearchCovered | blockadjust.py:96 | Returns, in trie order, exactly the stored prefixes inside the given one, itself included. |
| RadixTrie.Radix.Prefixes | blockadjust.py:84 | Returns every stored prefix exactly once, in trie order. |
| RadixTrie.InsertSorted | blockadjust.py:138 | Inserting at the first position not below the new prefix keeps the list strictly ordered and adds exactly that prefix. |
| RadixTrie.RemoveSorted | blockadjust.py:82 | Removing one entry keeps the list strictly ordered and removes exactly that prefix. |
| RadixTrie.SortedUnique | blockadjust.py:84 | Two strictly ordered lists with the same elements are equal, so the returned list is determined by its set. |
| RadixTrie.KeyLessTotal | blockadjust.py:84 | The enumeration order is irreflexive, and any two distinct prefixes are ordered one way or the other. |
| RadixTrie.KeyLessTransitive | blockadjust.py:84 | The enumeration order is transitive; with `KeyLessTotal` it is a strict total order. |
| IpPrefix.Canonical | blockadjust.py:66 | Zeroing host bits gives a canonical prefix of the same family and length that contains the original address. |
| IpPrefix.CanonicalOfValid | blockadjust.py:138 | A canonical prefix is its own canonical form, so adding a generated subnet stores it exactly as generated. |
| IpPrefix.Halves | blockadjust.py:127 | The two /len+1 subnets are canonical strict subnets in ascending order. They are disjoint and together hold exactly the hosts of the network. |
| IpPrefix.Supernets | blockadjust.py:99 | For a canonical network the `supernet()` list has one entry per length from /0 to /len-1. The entry at length k is a canonical /k prefix holding the network strictly inside it. |
| IpPrefix.SupernetsAreStrictSupernets | blockadjust.py:99 | A network is in another's `supernet()` list exactly when the other lies strictly inside it. |
| IpPrefix.TruncateToCover | blockadjust.py:99 | Cutting a longer canonical prefix down to a shorter one's length yields the shorter one exactly when it covers the longer one. |
| IpPrefix.NestedOrDisjoint | blockadjust.py:96-99 | Two canonical blocks share a host exactly when one contains the other, so the covered search finds every stored block that overlaps the network from inside. |
| IpPrefix.OverlapIsSharedHost | blockadjust.py:96-99 | Two blocks overlap, as the model defines it on address ranges, exactly when some host lies in both. |
| IpPrefix.CoversHosts | blockadjust.py:96 | Every host of a block found by the covered search is a host of the searched network. |
| IpPrefix.CoversTransitive | blockadjust.py:96-99 | Containment of blocks is transitive. |
| SubnetSpec.GenIsGenAllOfHalves | blockadjust.py:127-140 | The definition of `Gen`, seen through `Halves`: below the family's width, splitting a network adds what handling the two `/len+1` subnets in ascending order adds. |
| SubnetSpec.HasStrictSubnet | blockadjust.py:86-109 | For canonical prefixes, "a stored prefix lies strictly inside" is equivalent to the code's test: a covered stored prefix, other than the network, whose `supernet()` list holds the network. |
| SubnetSpec.SupernetCriterion | blockadjust.py:96-99 | For canonical prefixes, some stored prefix lies strictly inside the network exactly when some covered stored prefix other than the network lists it among its supernets. |
| SubnetSpec.Gen | blockadjust.py:111-140 | Every block a split adds is new to the trie, has nothing stored strictly inside it, has the network's family, and is longer than the network but no longer than the family's width. |
| SubnetSpec.GenChild | blockadjust.py:127-140 | The same for handling one half: every added block is new, has nothing stored strictly inside it, has the half's family, is at least as long as the half, and fits the family's width. |
| SubnetSpec.HalfStep | blockadjust.py:127-140 | Handling the next half sees the stored set unchanged inside that half, so each turn of the loop adds exactly that half's `GenChild`. |
| SubnetSpec.GenInside | blockadjust.py:111-140 | What a split adds is canonical, new to the trie, and strictly inside the split network. |
| SubnetSpec.GenAvoidsStored | blockadjust.py:114-115 | No added block shares a host with a stored block inside the split network, so the subnets to preserve are preserved. |
| SubnetSpec.GenDisjoint | blockadjust.py:111-140 | The added blocks are pairwise disjoint. |
| SubnetSpec.GenCovers | blockadjust.py:111-140 | Every host of the split network is in an added block or in a stored block strictly inside it. |
| SubnetSpec.GenLocal | blockadjust.py:111-140 | What a split adds depends only on what is stored strictly inside the network. |
| SubnetSpec.GenAroundOne | blockadjust.py:55-58 | When everything stored inside the network lies within one stored block, the split adds exactly the blocks around that block: at each level, the half that does not hold it. |
| SubnetSpec.GenCoarsest | blockadjust.py:127-140 | The split is as coarse as possible: every added block has a parent one bit shorter with a stored block strictly inside it, so no two added halves could have been kept whole as their parent. |
| AdjustSpec.Accepted | blockadjust.py:63-68 | The accepted set is exactly the canonical forms of the inputs that parse. |
| AdjustSpec.Partial | blockadjust.py:75-82 | Part way through the loop, the stored set keeps every input not yet handled and every input with nothing inside it. Each other block it holds has no input strictly inside it. |
| AdjustSpec.Adjusted | blockadjust.py:73-84 | No block of the result has an input strictly inside it, and an input is in the result exactly when no input lies strictly inside it. |
| AdjustSpec.AdjustStep | blockadjust.py:75-82 | Handling the next input in length order sees, inside that input, exactly the inputs. Its subnet test and split are therefore those against the inputs, and the stored set moves from one `Partial` to the next. |
| AdjustSpec.GeneratedNotInput | blockadjust.py:131-134 | A generated block is never an input, and it is canonical. |
| AdjustSpec.AdjustedCoversInput | blockadjust.py:55-58 | Every host of an input is in a block of the result that lies inside that input. |
| AdjustSpec.AdjustedWithinInputs | blockadjust.py:25-26 | Every block of the result is canonical and lies inside some input. |
| AdjustSpec.AdjustedCoarsest | blockadjust.py:75-84 | Nothing is split further than needed: every block of the result that is not an input has a parent one bit shorter with an input strictly inside it. |
| AdjustSpec.AdjustedSameHosts | blockadjust.py:25-26 | A host is in some block of the result exactly when it is in some input: none lost, none added. |
| AdjustSpec.AdjustedDisjoint | blockadjust.py:55 | No two blocks of the result overlap, so by `OverlapIsSharedHost` no host is listed twice. |
| AdjustSpec.AdjustedIdempotent | blockadjust.py:25-26 | Adjusting an adjusted set changes nothing. |
| AdjustSpec.AdjustedEmpty | blockadjust.py:63-68 | The result is empty exactly when no input was accepted. |
| AdjustSpec.AdjustedSingle | test_blockadjust.py:17-23 | A single input comes back unchanged. |
| AdjustSpec.AdjustedNested | blockadjust.py:55-58 | For two nested inputs, the inner one is kept and the outer one is replaced by the blocks around it. |
| AdjustSpec.AdjustedChain | blockadjust.py:28-30 | For three inputs, each strictly inside the one before, the innermost is kept. Each of the other two is replaced by the blocks around the next one. |
| BlockTokens.Strip | blockadjust.py:145 | The stripped piece is no longer than the piece, and is empty or has no whitespace at either end. |
| BlockTokens.StripRemovesSpace | blockadjust.py:145 | What stripping removes is leading and trailing whitespace only; the result is the stretch of the piece between them. |
| BlockTokens.StripEmpty | blockadjust.py:146 | A piece strips to the empty string exactly when it is all whitespace. |
| BlockTokens.StripIdempotent | blockadjust.py:145 | Stripping twice removes nothing more. |
| BlockTokens.GetBlocks | blockadjust.py:142-148 | The result is `Cleaned(pieces)`: the stripped, non-blank pieces in their order. |
| BlockTokens.Cleaned | blockadjust.py:142-148 | There are no more tokens than pieces, and each token is non-empty with no whitespace at either end. |
| BlockTokens.CleanedMembers | blockadjust.py:142-148 | A string is in the result exactly when it is non-blank and is the stripped form of some piece. |
| BlockTokens.CleanedIdempotent | blockadjust.py:142-148 | Cleaning a cleaned list changes nothing. |
| BlockTokens.CleanedAppend | blockadjust.py:144-147 | Cleaning two lists one after the other is cleaning their concatenation. |
| BlockTokens.SplitCommas | blockadjust.py:151 | Splitting at commas gives at least one piece, and no piece holds a comma. |
| BlockTokens.JoinSplit | blockadjust.py:151 | Joining the pieces of a split with commas gives back the string. |
| BlockTokens.SplitJoin | blockadjust.py:151 | Splitting comma-free pieces joined with commas gives back the pieces. |
| BlockTokens.ReadBlocksFromArgs | blockadjust.py:150-151 | The tokens are the cleaned comma-separated pieces of BLOCKS. Each is non-empty and holds no comma. |
| Scenarios.OutcomeIsResult | blockadjust.py:84 | A list in trie order holding exactly the adjusted set is the list `Adjust` returns. |
| Scenarios.DescriptionExample | blockadjust.py:28-30 | 1.0.0.0/8, 1.128.0.0/9 and 1.192.0.0/10 give 1.0.0.0/9, 1.128.0.0/10 and 1.192.0.0/10. |
| Scenarios.DescriptionExampleAdjusted | blockadjust.py:28-30 | `Adjust` returns exactly the expected list: 1.0.0.0/8, 1.128.0.0/9 and 1.192.0.0/10 give 1.0.0.0/9, 1.128.0.0/10 and 1.192.0.0/10. |
| Scenarios.LargestSubnetFirst | blockadjust.py:57-58 | 1.0.0.0/8 and 1.0.0.0/9 give 1.0.0.0/9 and 1.128.0.0/9. |
| Scenarios.LargestSubnetFirstAdjusted | blockadjust.py:57-58 | `Adjust` returns exactly the expected list: 1.0.0.0/8 and 1.0.0.0/9 give 1.0.0.0/9 and 1.128.0.0/9. |
| Scenarios.BogusV4Alone | test_blockadjust.py:7-15 | 1.0.0.0/33 alone gives nothing. |
| Scenarios.BogusV4AloneAdjusted | test_blockadjust.py:7-15 | `Adjust` returns exactly the expected list: 1.0.0.0/33 alone gives nothing. |
| Scenarios.BogusV4Beside | test_blockadjust.py:7-15 | 1.0.0.0/32 with 1.0.0.0/33 gives 1.0.0.0/32. |
| Scenarios.BogusV4BesideAdjusted | test_blockadjust.py:7-15 | `Adjust` returns exactly the expected list: 1.0.0.0/32 with 1.0.0.0/33 gives 1.0.0.0/32. |
| Scenarios.BogusV6Alone | test_blockadjust.py:7-15 | 1::/129 alone gives nothing. |
| Scenarios.BogusV6AloneAdjusted | test_blockadjust.py:7-15 | `Adjust` returns exactly the expected list: 1::/129 alone gives nothing. |
| Scenarios.BogusV6Beside | test_blockadjust.py:7-15 | 1::/128 with 1::/129 gives 1::/128. |
| Scenarios.BogusV6BesideAdjusted | test_blockadjust.py:7-15 | `Adjust` returns exactly the expected list: 1::/128 with 1::/129 gives 1::/128. |
| Scenarios.SingleV4 | test_blockadjust.py:17-23 | 1.0.0.0/8 alone comes back unchanged. |
| Scenarios.SingleV4Adjusted | test_blockadjust.py:17-23 | `Adjust` returns exactly the expected list: 1.0.0.0/8 alone comes back unchanged. |
| Scenarios.SingleV6 | test_blockadjust.py:17-23 | 1::/48 alone comes back unchanged. |
| Scenarios.SingleV6Adjusted | test_blockadjust.py:17-23 | `Adjust` returns exactly the expected list: 1::/48 alone comes back unchanged. |
| Scenarios.NestedV6 | test_blockadjust.py:25-33 | 1::/48 with 1::/64 gives the seventeen listed blocks, 1::/64 through 1:0:0:8000::/49. |
| Scenarios.NestedV6Adjusted | test_blockadjust.py:25-33 | `Adjust` returns exactly the expected list: 1::/48 with 1::/64 gives the seventeen listed blocks, 1::/64 through 1:0:0:8000::/49. |
| Scenarios.LargestSubnetLast | test_blockadjust.py:40-43 | 1.0.0.0/8 with 1.128.0.0/9 gives 1.0.0.0/9 and 1.128.0.0/9. |
| Scenarios.LargestSubnetLastAdjusted | test_blockadjust.py:40-43 | `Adjust` returns exactly the expected list: 1.0.0.0/8 with 1.128.0.0/9 gives 1.0.0.0/9 and 1.128.0.0/9. |
| Scenarios.LargeSubnetFirst | test_blockadjust.py:45-48 | 1.0.0.0/8 with 1.0.0.0/10 gives 1.0.0.0/10, 1.64.0.0/10 and 1.128.0.0/9. |
| Scenarios.LargeSubnetFirstAdjusted | test_blockadjust.py:45-48 | `Adjust` returns exactly the expected list: 1.0.0.0/8 with 1.0.0.0/10 gives 1.0.0.0/10, 1.64.0.0/10 and 1.128.0.0/9. |
| Scenarios.LargeSubnetSecond | test_blockadjust.py:50-53 | 1.0.0.0/8 with 1.64.0.0/10 gives 1.0.0.0/10, 1.64.0.0/10 and 1.128.0.0/9. |
| Scenarios.LargeSubnetSecondAdjusted | test_blockadjust.py:50-53 | `Adjust` returns exactly the expected list: 1.0.0.0/8 with 1.64.0.0/10 gives 1.0.0.0/10, 1.64.0.0/10 and 1.128.0.0/9. |
| Scenarios.LargeSubnetThird | test_blockadjust.py:55-58 | 1.0.0.0/8 with 1.128.0.0/10 gives 1.0.0.0/9, 1.128.0.0/10 and 1.192.0.0/10. |
| Scenarios.LargeSubnetThirdAdjusted | test_blockadjust.py:55-58 | `Adjust` returns exactly the expected list: 1.0.0.0/8 with 1.128.0.0/10 gives 1.0.0.0/9, 1.128.0.0/10 and 1.192.0.0/10. |
| Scenarios.LargeSubnetLast | test_blockadjust.py:60-63 | 1.0.0.0/8 with 1.192.0.0/10 gives 1.0.0.0/9, 1.128.0.0/10 and 1.192.0.0/10. |
| Scenarios.LargeSubnetLastAdjusted | test_blockadjust.py:60-63 | `Adjust` returns exactly the expected list: 1.0.0.0/8 with 1.192.0.0/10 gives 1.0.0.0/9, 1.128.0.0/10 and 1.192.0.0/10. |
| Scenarios.SmallNetwork | test_blockadjust.py:65-70 | 1.0.0.0/24 with 1.0.0.5/32 gives the nine listed blocks, 1.0.0.0/30 through 1.0.0.128/25. |
| Scenarios.SmallNetworkAdjusted | test_blockadjust.py:65-70 | `Adjust` returns exactly the expected list: 1.0.0.0/24 with 1.0.0.5/32 gives the nine listed blocks, 1.0.0.0/30 through 1.0.0.128/25. |

## Left out

- `main`, docopt option parsing, the `-o` output file, and stdin and stdout are I/O. They are not modelled.
- `read_blocks_from_file` (blockadjust.py:153-154) is not modelled. It is `get_blocks` over the lines of a file, and `GetBlocks` models `get_blocks` on any sequence of pieces.
- Logging and the `should_debug` checks only write to the log, so they are left out.
- The KeyboardInterrupt handling in `main` is left out.
- Parsing prefix text, and formatting prefixes as text, is done by netaddr and py-radix.
  - Prefixes are modelled as (family, address, length) values. The scenarios write them in that form.
  - A prefix that does not parse is modelled by a length past the family's width, or an address outside the family.
  - Text that is not an address at all is not modelled.
- The internal node layout of py-radix's trie (per-family trees of bit-indexed nodes) is left out. Only its observable behaviour is modelled, as an ordered list of canonical prefixes.
  - The enumeration order is taken to be ascending family, then address, then length.
  - `add` is taken to store the network with its host bits zeroed.
- BlockAdjust.HasSubnet: requires a canonical `network`. The program always passes a stored prefix or a generated subnet, and both are canonical.
- BlockAdjust.GenerateSubnets: requires `maxPrefixLen` to be the family's width, which is what `adjust` passes (32 or 128). Other values are not modelled.
- BlockAdjust.Adjust: the nodes that `nodes()` returns are modelled by their prefixes. `adjust` only reads `prefix`, `prefixlen` and `family` from them.
- BlockAdjust.Adjust: the loop does not check whether a node is still stored before handling it, and neither does the model. `AdjustStep` shows that every node is still stored when its turn comes.
- BlockTokens.IsSpace: uses the whitespace set of Python 3 `str.isspace`. Under Python 2 byte strings, only the ASCII whitespace characters would be stripped.
