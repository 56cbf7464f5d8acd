# Swipp node: verified models

A Dafny 4.11 model of the parts of the Swipp node that keep state, loop over data or do exact arithmetic, with proofs
of what they keep and compute. `dafny verify dfyconfig.toml` checks all of it.

What is modelled, one group of modules each:

- **Stochastic address manager** (`AddrTables`, `AddrInvariant`, `AddrSampling`, `AddrMan`, `AddrMissed`, `AddrCheck`,
  `AddrStore`, `AddrRoundTrip`).
  The class `CAddrMan` updates its maps, vectors, buckets and counters in place. `Consistent` is the invariant that the
  source checks at run time only: three views of the same entries agree, reference counts equal memberships, every
  tried entry sits in its one bucket, no bucket overflows. Every operation keeps it, and a saved table loads back.
- **Hash drivers.** Keccak (`KeccakPlain`, `KeccakFast`, `KeccakInPlace`, `KeccakConstants`, `KeccakSponge`, `Keccak`)
  is followed from FIPS 202 down to complemented lanes, renaming instead of pi, and eight rounds to a turn. `Blocks` is
  the buffering loop that the drivers share; `Blake`, `Echo`, `BlockCount` with `Groestl` and `Jh`, `Bmw` and `CubeHash`
  add counters, padding and closing on top of it, with `HashPadding` for what their paddings have in common.
  `MixColumns` is ECHO's word-parallel column mixing over GF(2^8). Machine words of 64 bits are lists of 64 bits.
- **Darksend session of a masternode** (`DarksendPool`, `DarksendInvariant`, `Darksend`, `DarksendHistory`): each message and
  the timer is a step, external verdicts are inputs of the step, and the laws cover every run.
- **Stake modifier** (`StakeModifier`): sections, 64 rounds of selection, the walks along the chain.
- **Base58, big numbers, wallet import format** (`Positional`, `BigNum`, `Base58`, `Wif`).
- **Locked pages** (`LockedPages`), **transaction lock votes** (`InstantX`), **alerts** (`Alerts`), **encrypting key
  store** (`KeyStore`), **Bloom filter** (`Bloom`).
- `BitNumbers`, `Ordered` and `Wrappers` hold the arithmetic, the iteration order and the option type that the others share.

Functions state what is computed; the classes and methods are the source's own loops and updates, proved equal to those
functions. Randomness is a nondeterministic choice, clocks and verdicts of unseen code are parameters, hash and cipher
functions are parameters with only the laws a property needs.

Where the code and expectations about it differ, the model follows the code:

- `SelectTried` (`src/addrman.cpp:153-164`) records the position that the oldest sampled entry was drawn from, not the one
  it has moved to. It holds that entry exactly when the draw was zero, and a consistent table is given where it does not.
- `EncryptKeys` (`src/crypter.cpp:348`) sets its flag before the loop; a failing call leaves the documented invariant
  broken and the keys it had not sealed unfound. The contract says exactly when, and a store is given.
- Votes (`src/instantx.cpp:130-136`) need no injective vote id: that ids are never repeated among held votes is itself kept.
- Without hash functions (`src/bloom.cpp:40-51`) an inserted key can be lost; the exact condition over any run is proved, and
  a new filter shows it.
- The Python encoder (`wif-converter.py:25-34`) raises on the empty string and drops leading zero bytes. The Python decoder
  (`wif-converter.py:36-45`) drops every leading zero digit, so it loses leading ones and the upper half of a first byte
  below 16, gives one digit for zero, and raises on the space that the C++ decoder skips. Both exact conditions are proved,
  with texts on which they fail, and any number of ones in front of a wallet import format is accepted.
- The run-time check (`src/addrman.cpp:477-565`) leaves bucket sizes, the placement of tried entries and the set of indexed
  addresses open; with those it is exactly the invariant.
- Block times may go back by less than two minutes (`src/main.cpp:2162`, `src/main.h:718-724`), so two blocks of one aligned
  interval can generate a modifier (`src/kernel.cpp:126`). The exact condition is proved, and a chain that shows it is given.

## Model

| member | source | states |
|---|---|---|
| AddrMan.CAddrMan.constructor | src/addrman.h:366-374 | a new table is consistent and empty, with the given random key |
| AddrMan.CAddrMan.Find | src/addrman.cpp:90-106 | an address is found exactly when it is indexed and its entry exists; the id is the indexed one |
| AddrMan.CAddrMan.Create | src/addrman.cpp:108-121 | the new entry appears in all of id map, address map and random vector at once, with the next id |
| AddrMan.CAddrMan.SwapRandom | src/addrman.cpp:123-140 | two positions of the random vector trade places and both back-pointers follow |
| AddrInvariant.SwappedKeeps | src/addrman.cpp:123-140 | swapping two positions keeps the whole invariant |
| AddrMan.CAddrMan.SelectTried | src/addrman.cpp:142-169 | the bucket is shuffled by at most four draws, and the position returned is the one that the entry of least recent success among those brought up, the earliest of several, was drawn from |
| AddrSampling.OldestIfInPlace | src/addrman.cpp:153-166 | the entry with the least recent success of those sampled is at the position of its turn; the position returned holds it exactly when the draw of that turn was zero |
| AddrMissed.CrowdedConsistent | src/addrman.cpp:477-565 | a table whose first tried bucket is full, with one new entry, is consistent |
| AddrMissed.OldestIsMissed | src/addrman.cpp:153-166 | on that table four draws move the new entry to tried and evict an entry that was not among the four sampled, while an older one that was sampled stays |
| AddrMan.CAddrMan.EvictsTheOldest | src/addrman.cpp:258-266 | the entry evicted from a full bucket is the oldest of the four sampled exactly when that one was drawn in its own place |
| AddrMan.CAddrMan.ShrinkNew | src/addrman.cpp:171-230 | exactly one member leaves the bucket: a terrible one if there is any, otherwise the oldest of four sampled; an entry without references is deleted everywhere. Holds also while one reference is counted in advance |
| AddrInvariant.DroppedKeeps | src/addrman.cpp:184-194 | dropping a reference, and the entry with the last one, keeps the invariant, also when another entry has a reference counted in advance |
| AddrInvariant.IncRefKeeps | src/addrman.cpp:387 | a reference counted before it is linked breaks the invariant for that entry only |
| AddrInvariant.LinkedKeeps | src/addrman.cpp:387-392 | linking the reference counted in advance restores the invariant |
| AddrInvariant.CreatedKeeps | src/addrman.cpp:108-121 | a created entry without references breaks only the clause that every entry is referenced |
| AddrInvariant.ShuffledKeeps | src/addrman.cpp:153-164 | permuting a tried bucket keeps the invariant |
| AddrInvariant.PromotedKeeps | src/addrman.cpp:251-257 | moving an entry to a tried bucket with room keeps the invariant |
| AddrInvariant.ExchangedKeeps | src/addrman.cpp:259-281 | the exchange with an evicted entry keeps the invariant, and the bucket the evicted one goes to, its own or the one just left, has room |
| AddrMan.CAddrMan.MakeTried | src/addrman.cpp:232-281 | the new entry leaves all new buckets and enters its tried bucket; from a full bucket the entry at the sampled position becomes a new entry with one reference; the invariant holds again |
| AddrMan.CAddrMan.EvictedGoesHome | src/addrman.cpp:262-277 | the evicted entry is afterwards in one new bucket: that of its source if it has room once the incoming entry has left, otherwise the one the incoming entry was found in |
| AddrMan.CAddrMan.Good_ | src/addrman.cpp:283-331 | with no entry for exactly this address and port nothing changes; an entry for them ends up tried with the given time and no attempts; the exit for an entry in no new bucket is never taken; times stay sane exactly when the address is unknown or the time is positive |
| AddrMan.CAddrMan.Attempt_ | src/addrman.cpp:398-413 | with no entry for exactly this address and port nothing changes; otherwise that entry alone gets the try time and one more attempt; times stay sane exactly when the time is not negative or the address unknown |
| AddrMan.CAddrMan.Connected_ | src/addrman.cpp:593-609 | with no entry for exactly this address and port nothing changes; otherwise its time is refreshed only when it is more than twenty minutes old, truncated to 32 bits |
| AddrMan.CAddrMan.Add_ | src/addrman.cpp:333-396 | true exactly for an unknown routable address; a known new entry gains its reference exactly when there is news, it has fewer than four and the draw out of two to their number is zero; a full bucket is shrunk first; the invariant holds again |
| AddrMan.RefreshedTime | src/addrman.cpp:343-354 | a report moves the recorded time exactly when, less the penalty, it lies more than an hour, or a day for one older than a day, after it; never below zero |
| AddrMan.GainsExactly | src/addrman.cpp:356-372 | a reference is gained exactly for news about a new entry with fewer than four of them, on a draw of zero |
| AddrTables.FourTriedBuckets | src/addrman.cpp:12-25 | addresses of one group reach at most four tried buckets |
| AddrTables.NewBucketsOfSource | src/addrman.cpp:27-40 | what one group of sources reports reaches at most 32 new buckets |
| AddrTables.NewBucketOfGroups | src/addrman.cpp:27-40 | the new bucket depends on the groups of address and source only |
| AddrMan.CAddrMan.Doubled | src/addrman.cpp:366-371 | the factor is two to the power of the references |
| AddrMan.CAddrMan.GetAddr_ | src/addrman.cpp:568-591 | nothing but the order of the random vector changes; the result is the decent entries met on the way, never above 23 percent or 2500, and short of both bounds only when all were seen |
| AddrMan.DecentMembers | src/addrman.cpp:568-591 | the addresses given out are exactly those of entries met that are not terrible, with service, flags and time |
| AddrMan.KeptExactly | src/addrman.cpp:42-66 | when an entry is not terrible, by age, failures and last success |
| AddrMan.Run | src/addrman.cpp:108-396 | any sequence of operations keeps the whole invariant, and with sane clocks the order of times too |
| AddrCheck.Check_ | src/addrman.cpp:477-565 | the run-time check returns 0 exactly when its conditions hold of the tables |
| AddrCheck.ConsistentPasses | src/addrman.cpp:477-565 | the invariant with sane times implies every condition of the run-time check |
| AddrCheck.PassesExactly | src/addrman.cpp:477-565 | the invariant with sane times holds exactly when the check passes and what it leaves open holds: bucket sizes, the bucket a tried entry hashes to, the set of addresses indexed, and the shape of the tables |
| AddrMan.CAddrMan.Serialize | src/addrman.h:217-277 | the stream written is the specified one: header, new entries, tried entries, bucket members |
| AddrStore.SaveLayout | src/addrman.h:217-277 | version, key, counts and number of buckets, then the new and then the tried entries, each in ascending order of ids, then the buckets |
| AddrStore.BucketLayout | src/addrman.h:262-276 | each bucket is its size and the places of its members among the new entries written |
| AddrMan.CAddrMan.Unserialize | src/addrman.h:279-359 | succeeds exactly when the stream can be read, and then holds what reading gives |
| AddrRoundTrip.LoadSaved | src/addrman.h:217-359 | loading what a consistent table saved succeeds and gives the same table up to the numbering of ids, the order of the random vector and of tried buckets, and the unsaved last try; counts are equal, so nothing is lost, and the invariant holds |
| Blocks.CutsDoNotMatter | src/keccak.c:1568-1603 | however a message is cut into update calls, chaining value and pending bytes are those of one call on the whole |
| Blocks.FedTwice | src/keccak.c:1568-1603 | two update calls are one on the concatenation |
| Blocks.RestIsTail | src/keccak.c:1580-1600 | what stays in the buffer are the last bytes, as many as the length modulo the block size |
| Blocks.Driver.Core | src/blake.c:905-941 | the update loop, early return included, compresses each block as it fills and keeps the rest |
| Blocks.Driver.Feed | src/echo.c:765-798 | any pieces leave the context of a single call |
| KeccakConstants.OffsetsFollowTheWalk | src/keccak.c:1016-1045 | each rotation constant is the triangular number of the one step at which the walk of Algorithm 2 of FIPS 202 visits that lane |
| KeccakConstants.ConstantsFollowTheRegister | src/keccak.c:136-149 | each round constant has exactly the bits that the shift register of Algorithms 5 and 6 of FIPS 202 puts there |
| Words.RotlBit | src/sph_types.h:939 | rotation takes every bit from the place its distance before, around the word |
| KeccakPlain.RhoMoves | src/keccak.c:1016-1045 | rho moves every bit of a lane up by the offset of the lane, around the lane, as in section 3.2.2 of FIPS 202 |
| KeccakPlain.ThetaMoves | src/keccak.c:958-1014 | theta flips a bit by the parities of the columns (x - 1, z) and (x + 1, z - 1), as in section 3.2.1 |
| KeccakPlain.ThetaOfOneBit | src/keccak.c:958-1014 | a single bit of lane (0, 0) reaches the lanes x = 1 in its place and the lanes x = 4 one place up |
| KeccakPlain.PiMoves | src/keccak.c:1139-1156 | pi takes lane (x, y) to (y, 2x + 3y), as in section 3.2.3 |
| KeccakPlain.ChiMoves | src/keccak.c:1070-1135 | chi flips a bit where the next one of its row is zero and the one after that is one, as in section 3.2.4 |
| KeccakFast.ThetaFlips | src/keccak.c:958-1014 | theta on lanes complemented by any mask is theta complemented by the propagated mask |
| KeccakFast.MasksMeet | src/keccak.c:1047-1056 | theta and pi carry the six complemented lanes to the twelve that the optimised chi expects |
| KeccakFast.KhiIsChi | src/keccak.c:1070-1135 | on that mask the mixed OR and AND rows are chi of section 3.2.4, complemented in six lanes |
| KeccakFast.RoundFastIsRound | src/keccak.c:1392-1397 | one optimised round on complemented lanes is the plain round, complemented |
| KeccakFast.RoundsFastIsRounds | src/keccak.c:1452-1467 | for every state the optimised permutation is Keccak-f[1600] conjugated by complementing lanes 1, 2, 8, 12, 17 and 20 |
| KeccakInPlace.Renaming | src/keccak.c:1139-1156 | each list of lane names is the previous one with pi applied |
| KeccakInPlace.NamesDistinct | src/keccak.c:1139-1156 | no two names of a round share a lane |
| KeccakInPlace.PiByRenaming | src/keccak.c:1392-1397 | reading the lanes under the next names is pi |
| KeccakInPlace.ThEltIsEffect | src/keccak.c:958-973 | the grouped XORs of TH_ELT are the theta effect |
| KeccakInPlace.ThetaMacro | src/keccak.c:975-1014 | in place, under the names of the round, the macro is theta |
| KeccakInPlace.RhoMacro | src/keccak.c:1016-1045 | in place, the macro is rho |
| KeccakInPlace.KhiMacro | src/keccak.c:1070-1135 | in place, row by row, the macro is the optimised chi |
| KeccakInPlace.IotaMacro | src/keccak.c:1137 | the constant goes into the lane that is first under every list of names |
| KeccakInPlace.KfElt | src/keccak.c:1392-1397 | theta and rho under one list and chi and iota under the next are a round |
| KeccakInPlace.P8ToP0 | src/keccak.c:1313-1347 | the moves bring the lanes of the ninth list back under the first |
| KeccakInPlace.KeccakF1600 | src/keccak.c:1452-1467 | three turns of eight renamed rounds are the 24 optimised rounds |
| KeccakSponge.AbsorbComplemented | src/keccak.c:1607-1647 | absorbing any data with complemented lanes is plain absorption, complemented |
| KeccakSponge.AbsorbBytes | src/keccak.c:183-190 | absorbing bytes as little-endian words is absorbing the bit string of FIPS 202 |
| KeccakSponge.PaddingIsPad101 | src/keccak.c:1618-1636 | the bytes of close are the extra message bits followed by pad10*1 of section 5.1 |
| Keccak.PaddingEndsBlock | src/keccak.c:1618-1636 | message and padding together end on a block boundary |
| Keccak.ClosedState | src/keccak.c:1637-1644 | the state after close, lanes complemented back, is that of the sponge on the padded bits |
| Keccak.SphKeccak.Init | src/keccak.c:1525-1566 | the context starts as the zero state with six lanes complemented |
| Keccak.SphKeccak.InputBuf | src/keccak.c:183-190 | a full buffer is XORed into the first words of the state |
| Keccak.SphKeccak.Core | src/keccak.c:1568-1603 | the in-place update loop agrees with feeding the bytes to the optimised sponge |
| Keccak.SphKeccak.Update | src/keccak.c:1568-1603 | the absorbed message grows by exactly the data of the call |
| Keccak.SphKeccak.Close | src/keccak.c:1607-1647 | the digest is the first bits of the Keccak sponge of FIPS 202 on the absorbed message and the extra bits, and the context starts over |
| HashPadding.MarkerBits | src/blake.c:959-960 | the marker byte holds the extra message bits, a one and zeros |
| HashPadding.FewestZeros | src/bmw.c:819-831 | padding that stops at a block boundary within a block has the fewest zeros that fit |
| HashPadding.BigEndianValue | src/blake.c:976-977 | read from the most significant byte the length bytes give the length back |
| HashPadding.LittleEndianValue | src/bmw.c:829-830 | read from the least significant byte the length bytes give the length back |
| Blake.StepCounts | src/blake.c:933-934 | a turn of the loop moves both counter words one block on, carry and wrap included |
| Blake.AbsorbCounts | src/blake.c:922-938 | while blocks are absorbed the counter words count the message bits modulo twice the word |
| Blake.BiasUndone | src/blake.c:963-971 | the bias of close is undone by the next turn: the block is compressed with the number of message bits up to and including it, or zero when it holds none |
| Blake.EmptiedStep | src/blake.c:982-989 | the block that holds padding only is compressed with counter zero |
| Blake.PaddingBits | src/blake.c:957-990 | padding is a one, the fewest zeros that fit, the digest flag and the length of twice the word |
| Blake.DigestByParts | src/blake.c:943-994 | hashing splits at the last whole block |
| Blake.Close | src/blake.c:943-994 | close computes the fold of the compression function over the padded blocks, each with its message-bit counter (both word sizes) |
| Echo.IncrementAdds | src/echo.c:637-644 | the four counter words count modulo 2^128 |
| Echo.CountOn | src/echo.c:637-644 | counting on from the words of a number gives the words of the sum |
| Echo.AbsorbCounts | src/echo.c:781-796 | while blocks are absorbed the counter is the number of message bits |
| Echo.PaddedMessage | src/echo.c:883-906 | padding is a one, the fewest zeros that fit, the digest size and the 128-bit length |
| Echo.Close | src/echo.c:859-916 | close computes the fold over the padded blocks, each with its message-bit counter, and re-initialises |
| MixColumns.XtimeIsProduct | src/echo.c:264-269 | multiplication by x modulo the polynomial of section 4.2 of FIPS 197, coefficient by coefficient |
| MixColumns.MatrixRow | src/echo.c:256-275 | a single byte 01 in row 0, 1, 2 or 3 of a column gives 02, 03, 01 or 01 |
| MixColumns.DoubledLane | src/echo.c:264-269 | masking, shifting and multiplying by 27 doubles every byte lane in GF(2^8) with no carry between lanes |
| MixColumns.MixedIsMixColumns | src/echo.c:256-275 | in each of the eight lanes, for all words, the macro is the matrix of section 5.1.3 of FIPS 197 |
| MixColumns.MixColumn1 | src/echo.c:256-275 | four words are replaced by the mixed column, all others stay |
| MixColumns.BigMixColumns | src/echo.c:283-288 | all eight columns of words are mixed, each from its old words |
| BlockCount.AbsorbCounts | src/groestl.c:2921-2941 | the block counter counts modulo 2^64 beside the chaining value |
| Groestl.PaddingEndsBlock | src/groestl.c:2960-2991 | the padded message is whole blocks and ends with their number |
| Groestl.PaddingBits | src/groestl.c:2960-2991 | padding is a one, the fewest zeros that fit and the block count |
| Groestl.Close | src/groestl.c:2946-3003 | the chaining value before the output transformation is that of the padded message |
| Jh.PaddingBits | src/jh.c:966-990 | padding is a one, 383 zeros and as many more as reach a block, and the length (modulo 2^73, the range of the counter) |
| Jh.PaddingEndsBlock | src/jh.c:966-990 | the padded message is whole blocks |
| Jh.Close | src/jh.c:953-1000 | the final chaining value is that of the padded message |
| Bmw.SphBmw.Update | src/bmw.c:771-807 | with two chaining buffers that swap roles the update agrees with feeding the bytes, and the bit count follows modulo 2^64 |
| Bmw.PaddingBits | src/bmw.c:819-831 | padding is a one, the fewest zeros that fit and the little-endian length |
| Bmw.LastIs | src/bmw.c:822-832 | the last chaining value comes from one or two closing compressions |
| Bmw.SphBmw.Close | src/bmw.c:809-839 | the digest is the last words, little-endian, of the last chaining value compressed into the final constant |
| CubeHash.SwapLowRenames | src/cubehash.c:268-364 | a swap of the low half is a change of its names |
| CubeHash.SwapHighRenames | src/cubehash.c:268-364 | a swap of the high half is a change of its names |
| CubeHash.HalfRound | src/cubehash.c:268-364 | half a round without swaps is half the specified round under changed names |
| CubeHash.RoundEven | src/cubehash.c:268-364 | the even macro is a round that leaves other names |
| CubeHash.RoundOdd | src/cubehash.c:366-463 | the odd macro is a round back to the first names |
| CubeHash.SixteenRounds | src/cubehash.c:470-532 | eight pairs of macros are sixteen rounds of the specification |
| CubeHash.RoundWords | src/cubehash.c:268-463 | a round word by word, and nothing but it: rotations by 7 and 11 and exchanges of runs of 8, 2, 4 and 1 words |
| CubeHash.PaddingBits | src/cubehash.c:589-592 | padding is a one and the fewest zeros that fill the block |
| CubeHash.Close | src/cubehash.c:578-604 | the result is the padded message absorbed, the flip, and 160 more rounds |
| DarksendInvariant.RunKeeps | src/darksend.cpp:40-476 | after every run of messages and timers: at most three entries with one denomination mask, at most three users, and the final transaction as the state demands |
| DarksendInvariant.StepKeeps | src/darksend.cpp:40-476 | each event keeps the invariant |
| DarksendInvariant.SigningIsFull | src/darksend.cpp:606-652 | while clients sign there are three entries, at least two users, and a final transaction of exactly their inputs in order and their outputs in any order |
| DarksendInvariant.TransmissionIsSigned | src/darksend.cpp:654-748 | in the transmission state every entry input is signed and every input of the transaction carries a signature accepted for it |
| DarksendInvariant.TransmittedIsSigned | src/darksend.cpp:654-668 | so it is at the moment the last signature arrives and the transaction is sent |
| DarksendInvariant.JoinKeeps | src/darksend.cpp:2143-2211 | joining or starting a session keeps the invariant |
| DarksendInvariant.SubmitKeeps | src/darksend.cpp:235-399 | an entry, accepted or refused, keeps the invariant; the third one completes the final transaction |
| DarksendInvariant.SigKeeps | src/darksend.cpp:1271-1328 | a signature keeps inputs in step with the entries and is remembered for every input it answers |
| DarksendInvariant.SignKeeps | src/darksend.cpp:444-475 | a message of signatures keeps the invariant |
| DarksendInvariant.TickKeeps | src/darksend.cpp:933-1061 | the timer keeps the invariant |
| DarksendInvariant.MasksCompareDenominations | src/darksend.cpp:2241-2275 | outputs that are all denominations have equal masks exactly when they use the same denominations |
| Darksend.GetDenominations | src/darksend.cpp:2241-2275 | the mask has the bit of each denomination used, or is 0 when some output is none |
| Darksend.AddSig | src/darksend.h:104-121 | the first input with that outpoint and sequence number decides, and takes a signature at most once |
| Darksend.RandomShuffle | src/darksend.cpp:641-642 | the outputs are permuted |
| Darksend.CDarkSendPool.SetNull | src/darksend.cpp:546-580 | entries, final transaction, users and collaterals are cleared |
| Darksend.CDarkSendPool.UpdateState | src/darksend.h:327-346 | a masternode never enters the error or success state |
| Darksend.CDarkSendPool.IsCompatibleWithSession | src/darksend.cpp:2143-2211 | the first user starts a session with its denominations; another joins exactly while the pool collects, has fewer than three users and was started with the same ones; a refusal changes nothing |
| Darksend.CDarkSendPool.IsCompatibleWithEntries | src/darksend.cpp:2121-2141 | the outputs have the mask of every entry |
| Darksend.CDarkSendPool.AddEntry | src/darksend.cpp:1188-1269 | accepted exactly under the stated conditions; every refusal costs a user |
| Darksend.CDarkSendPool.AddScriptSig | src/darksend.cpp:1271-1328 | all matching inputs of the final transaction and the first willing entry take the signature |
| Darksend.CDarkSendPool.SignaturesComplete | src/darksend.cpp:1331-1343 | true exactly when every input of every entry is signed |
| Darksend.CDarkSendPool.Check | src/darksend.cpp:606-763 | three entries become a final transaction of their inputs and outputs; once every input is signed it is sent and the session starts over, staying in transmission only when the announcement cannot be signed |
| Darksend.CDarkSendPool.CheckTimeout | src/darksend.cpp:933-1061 | a full queue starts collecting; the first expired entry goes, and the session with the last one; an overdue queue loses its users, an overdue signing phase ends the session |
| Darksend.CDarkSendPool.Dsi | src/darksend.cpp:235-399 | an entry is taken only into a full session and with the denominations of the entries there; a taken one runs the check |
| Darksend.CDarkSendPool.Dss | src/darksend.cpp:444-475 | every signature of the message is tried in turn; the check runs if any entry took one |
| Darksend.CDarkSendPool.Handle | src/darksend.cpp:40-476 | the object always holds what the run of its events gives, and its invariant |
| DarksendHistory.OneDenomination | src/darksend.cpp:2143-2211 | in every run all clients that joined the present session asked for one denomination |
| DarksendHistory.RunOrderly | src/darksend.cpp:1188-1328 | in every run no entry has a null input, none with inputs has a negative amount, signed inputs carry different signatures, and while entries are collected no two share an input |
| DarksendHistory.TickExpires | src/darksend.cpp:933-1061 | the first expired entry of a collecting session goes, and the session with the last one |
| DarksendHistory.TickEffects | src/darksend.cpp:933-1061 | an overdue queue loses its users, an overdue signing phase ends everything, a full queue starts collecting, and otherwise a signing session stays as it is |
| StakeModifier.SectionsGrow | src/kernel.cpp:39-43 | sections never decrease, from 200 to 600 seconds, each 37800 divided by 189 - 2n and rounded down |
| StakeModifier.StopsTile | src/kernel.cpp:133-151 | each stop is one section after the one before, and the last is the aligned boundary of the previous block time |
| StakeModifier.AlignedIsBoundary | src/kernel.cpp:133 | the boundary is the multiple of 600 seconds at or before the time |
| StakeModifier.SelectionInterval | src/kernel.cpp:46-52 | the interval is the sum of the 64 sections |
| StakeModifier.PickUnique | src/kernel.cpp:57-96 | the selection rule leaves one candidate |
| StakeModifier.SelectBlock | src/kernel.cpp:57-96 | the pick is the least by selection hash of the unselected candidates up to the stop, or the earliest one when there is none |
| StakeModifier.StakeIsFavoured | src/kernel.cpp:72-92 | when a proof-of-stake block is eligible, the pick is one too unless its own hash is below 2^224 |
| StakeModifier.LeastHashWins | src/kernel.cpp:72-92 | stake blocks are compared by hash divided by 2^32, work blocks by hash |
| StakeModifier.OneIsLeft | src/kernel.cpp:148-160 | while fewer are selected than there are candidates, one is left |
| StakeModifier.PicksDistinct | src/kernel.cpp:144-160 | the picks are pairwise different blocks |
| StakeModifier.RoundsUnique | src/kernel.cpp:144-160 | the rule determines the picks of all rounds |
| StakeModifier.SelectAll | src/kernel.cpp:144-160 | min(64, n) rounds succeed, each by the rule, and bit r of the result is the entropy bit of pick r, higher bits zero |
| StakeModifier.GetLastStakeModifier | src/kernel.cpp:25-36 | the modifier and time of the last block that generated one, or failure without one at genesis |
| StakeModifier.ComputeNextStakeModifier | src/kernel.cpp:111-189 | the same modifier inside an aligned interval, otherwise the new one from the sorted blocks of the selection interval |
| StakeModifier.GetKernelStakeModifier | src/kernel.cpp:193-223 | the first later block that generated a modifier a selection interval after the given one, or failure when the chain has none |
| StakeModifier.SlotsGrow | src/kernel.cpp:122-127 | on chains whose times obey AcceptBlock the aligned intervals of generating blocks never go back |
| StakeModifier.OncePerInterval | src/kernel.cpp:126 | on such chains no two blocks of one aligned interval generate a modifier exactly when no block for which one is due is timed back into the interval of the last modifier |
| StakeModifier.StepsBackOverBoundary | src/kernel.cpp:126 | that takes a step back over the boundary right after the interval of the last modifier |
| StakeModifier.OnceWhenTimesGrow | src/kernel.cpp:126 | so there is at most one modifier to an interval when times do not decrease |
| StakeModifier.TwiceInOneInterval | src/kernel.cpp:126 | a chain from the genesis time of the main network that AcceptBlock lets through, with a step back of one second, on which two blocks of one interval generate a modifier |
| Positional.ConvertedBack | src/base58.h:25-120 | changing the base, leading zeros kept one for one, and changing back is the identity |
| Base58.DecodeEncode | src/base58.h:25-124 | decoding an encoded byte string gives it back, leading zeros included |
| Base58.EncodeDecode | src/base58.h:25-124 | encoding what a string over the alphabet decodes to gives the string back |
| Base58.DecodesExactly | src/base58.h:70-124 | a string decodes to given bytes exactly when, surrounding space aside, it is their encoding |
| Base58.EncodeBase58 | src/base58.h:25-63 | the division loop and the leading ones compute the encoding |
| Base58.AlphabetIs | src/base58.h:23 | the alphabet is the digits and letters without 0, O, I and l |
| Base58.DecodeBase58 | src/base58.h:70-124 | the loop with its treatment of spaces, of the sign byte and of leading ones computes the decoding |
| Base58.TrimmedDigits | src/base58.h:109-111 | dropping the sign byte leaves exactly the digits of the number |
| Base58.CheckRoundTrip | src/base58.h:131-161 | with any checksum function the checked form decodes to what was encoded |
| Base58.CheckDecodesExactly | src/base58.h:140-161 | a string passes the check exactly when, spaces aside, it is the checked encoding of its bytes |
| Base58.CBase58Data.SetString | src/base58.h:196-217 | version and data are the two parts of the decoded bytes; too few of them clear both |
| Base58.CBase58Data.ToString | src/base58.h:224-230 | the checked encoding of version and data |
| Base58.CBase58Data.Reread | src/base58.h:196-230 | what is written reads back as the same version and data |
| Base58.CBase58Data.SetData | src/base58.h:181-188 | version and data are the given ones |
| Base58.CBitcoinSecret.SetString | src/base58.h:381-392 | a string is taken exactly when it decodes to the version byte of the network and a key of 32 bytes with or without the compression byte |
| Base58.CBitcoinSecret.SetKey | src/base58.h:363-370 | the version byte, the key and the compression byte if it is compressed |
| Base58.CBitcoinSecret.GetKey | src/base58.h:372-378 | the first 32 bytes, and whether a one follows |
| Base58.CBitcoinSecret.Reopen | src/base58.h:363-392 | a key set, written, read and taken out is the same key with the same flag |
| BigNum.MpiRoundTrip | src/bignum.h:324-353 | the MPI bytes of a number are minimal and read back as the number |
| BigNum.MpiCanonical | src/bignum.h:324-353 | bytes survive the number and back exactly when they are minimal |
| BigNum.VchRoundTrip | src/bignum.h:324-353 | setvch after getvch is the identity |
| BigNum.VchCanonical | src/bignum.h:324-353 | getvch after setvch is the identity exactly on minimal vectors |
| BigNum.CompactKeeps | src/bignum.h:355-389 | the compact form keeps the size and the three leading bytes |
| BigNum.CompactValue | src/bignum.h:355-370 | a compact form is its mantissa times 256 to the power of the size less three, negative when bit 23 is set |
| BigNum.CompactError | src/bignum.h:355-389 | for non-negative numbers below 256 bytes the compact form never exceeds the number, is less than one part in 2^15 below it, and is stable |
| BigNum.WordMpi | src/bignum.h:162-211 | shifting a 64-bit word out byte by byte builds its minimal signed MPI bytes |
| BigNum.SetInt64 | src/bignum.h:162-211 | the number set is the signed 64-bit value |
| BigNum.SetUint64 | src/bignum.h:234-266 | the number set is the unsigned 64-bit value |
| BigNum.GetUint64 | src/bignum.h:213-232 | the magnitude modulo 2^64 |
| Wif.B58Encode | wif-converter.py:25-34 | the loop computes the digits of the number, leading zeros lost; the empty string raises |
| Wif.B58Decode | wif-converter.py:36-45 | the loop computes the number of a string over the alphabet, and fails on any other |
| Wif.WifRoundTrip | wif-converter.py:47-99 | a key in wallet import format reads back as the same key on either network |
| Wif.OnesAccepted | wif-converter.py:80-99 | a key in wallet import format behind any number of ones reads back as that key |
| Wif.AcceptedIsWif | wif-converter.py:80-144 | a string is accepted with a key exactly when it is the import format of that key behind any number of ones, or, with an empty key, a bare checksum that begins like a prefix |
| Wif.PyEncodeDecode | wif-converter.py:25-45 | decoding and encoding give a text over the alphabet back exactly when it does not start with a one |
| Wif.DecodersAgree | wif-converter.py:36-45 | the Python decoder agrees with the C++ one on text over the alphabet exactly when there is a first byte and it is at least 16, and on other text exactly when the C++ one refuses it too |
| Wif.DecodersDiffer | wif-converter.py:36-45 | texts on which the decoders differ: a small first byte, a leading one, a leading space |
| Wif.EncodersAgree | wif-converter.py:25-34 | the Python encoder agrees with the C++ one exactly on non-empty byte strings that do not start with a zero byte |
| Wif.WifIsCheckedBase58 | wif-converter.py:47-78 | with the same hash the converter writes the checksummed Base58 of the prefixed key |
| LockedPages.TouchesIsOverlap | src/allocators.h:59-61 | a page is counted for a range exactly when some byte of the range lies on it |
| LockedPages.LockedPageManager.LockRange | src/allocators.h:52-75 | the counts stay those of the live ranges, and the locked pages the counted ones |
| LockedPages.LockedPageManager.UnlockRange | src/allocators.h:78-101 | likewise for releasing a live range; the lookup never fails |
| LockedPages.LockedPageManager.GetLockedPageCount | src/allocators.h:104-108 | the number of pages locked in the system |
| LockedPages.LockedExactly | src/allocators.h:63-75 | a page is locked exactly when a live range touches it |
| LockedPages.AllReleased | src/allocators.h:88-100 | with every range released nothing is counted and nothing is locked |
| LockedPages.Run | src/allocators.h:52-101 | any matched sequence of calls ends with the ranges it left, counted and locked |
| InstantX.OnePerMasternode | src/instantx.cpp:130-141 | a lock holds at most one vote of each masternode |
| InstantX.CountSignatures | src/instantx.cpp:636-652 | -1 without a height, otherwise the number of votes at the height of the lock |
| InstantX.SignaturesAreVoters | src/instantx.cpp:636-652 | the count of signatures is the number of distinct voters at that height |
| InstantX.VoteKeeps | src/instantx.cpp:367-386 | a vote with an unrecorded id keeps the invariant |
| InstantX.CleanKeeps | src/instantx.cpp:494-519 | a removed lock may take the ids of its votes along: no other lock needs them |
| InstantX.InstantXState.CreateNewLock | src/instantx.cpp:232-271 | a lock is made or its height set, unless an input is too new |
| InstantX.InstantXState.DoConsensusVote | src/instantx.cpp:274-328 | the own vote is recorded by id and not added to the lock |
| InstantX.InstantXState.CheckForConflictingLocks | src/instantx.cpp:442-469 | a conflict is an input locked for another transaction; then both locks expire now, otherwise nothing changes |
| InstantX.InstantXState.ProcessConsensusVote | src/instantx.cpp:331-440 | an acceptable vote joins the lock of its transaction and no other lock changes its votes; with twenty votes the inputs of the request are locked, or with a rival both locks expire; otherwise locked inputs and expirations stay |
| InstantX.CompleteLocksInputs | src/instantx.cpp:401-427 | from twenty votes on every input of a requested transaction without a rival is locked for it |
| InstantX.IncompleteLocksNothing | src/instantx.cpp:401 | with fewer votes nothing is locked and nothing expires |
| InstantX.RivalsExpire | src/instantx.cpp:442-469 | with a rival nothing is locked and both locks expire at once |
| InstantX.InstantXState.Txlvote | src/instantx.cpp:130-172 | a vote whose id is on record changes nothing; any other is recorded and, if acceptable, joins and completes its lock as above |
| InstantX.InstantXState.Txlreq | src/instantx.cpp:46-129 | a known or invalid request changes nothing; an accepted one makes its lock and at most records the own vote; a rejected one locks its inputs, and with a complete rival both locks expire |
| InstantX.InstantXState.CleanTransactionLocksList | src/instantx.cpp:487-525 | exactly the expired locks go, with their requests and the inputs of those; other requests and locked inputs stay |
| InstantX.Run | src/instantx.cpp:37-172 | after any sequence of requests, votes and cleanups every lock holds votes for its own transaction, at most one per masternode, with ids on record, and counts distinct voters |
| Alerts.PeaceLasts | src/alert.cpp:105-116 | once no held alert cancels another, none does at any later time |
| Alerts.PeaceWith | src/alert.cpp:225-236 | an alert that cancels none and that none cancels may be held |
| Alerts.AlertMap.EraseCancelled | src/alert.cpp:202-222 | the first loop erases alerts the new one covers or that have expired, and leaves none that it cancels |
| Alerts.AlertMap.IsCancelled | src/alert.cpp:225-234 | the second loop finds a held alert that cancels the new one if there is any |
| Alerts.AlertMap.ProcessAlert | src/alert.cpp:180-236 | a genuine alert in effect is refused only when a held one in effect cancels it; after an accepted one no held alert has an id it cancels; no held alert cancels another one after any call; what is gone was covered or had expired |
| Alerts.ReservedCancelsAll | src/alert.cpp:188-199 | the alert with the reserved id cancels every other one and is cancelled by none that stays below it |
| Alerts.AlertMap.Run | src/alert.cpp:180-236 | nor after any sequence of calls under a clock that never goes back |
| KeyStore.LockedGivesNothing | src/crypter.cpp:300-322 | a locked store returns no key |
| KeyStore.OpensAgain | src/crypter.cpp:125-143 | a key encrypted and decrypted with one master key is the same key |
| KeyStore.EncryptedAnswersTheSame | src/crypter.cpp:341-363 | an encrypted store knows the same ids and public keys, gives out no key while locked, and the same keys once opened |
| KeyStore.EncryptedUnlocks | src/crypter.cpp:237-264 | it unlocks with the master key it was encrypted with |
| KeyStore.CCryptoKeyStore.EncryptKeys | src/crypter.cpp:341-363 | succeeds exactly when nothing is encrypted yet and every key can be; a failure on the way leaves plain keys under a set flag and breaks the invariant |
| KeyStore.HalfEncryptedLoses | src/crypter.cpp:348-356 | after such a failure exactly the sealed ids are found and no key is given out, though every key is still in place |
| KeyStore.RefusedEncryption | src/crypter.cpp:348-356 | a store with one key and a cipher that refuses it, found before and not after |
| KeyStore.RefuseToEncrypt | src/crypter.cpp:266-363 | the same as a run of the store |
| KeyStore.CCryptoKeyStore.Unlock | src/crypter.cpp:237-264 | the test looks at the first encrypted key only; success sets the master key |
| KeyStore.CCryptoKeyStore.LockKeyStore | src/crypter.cpp:223-235 | a successful lock forgets the master key and nothing else |
| KeyStore.CCryptoKeyStore.AddKeyPubKey | src/crypter.cpp:266-285 | the added key is found afterwards and no other answer changes; refused while locked |
| KeyStore.CCryptoKeyStore.AddCryptedKey | src/crypter.cpp:288-298 | the sealed key is filed under the id of its public key |
| KeyStore.CCryptoKeyStore.GetKey | src/crypter.cpp:300-322 | the plain key, or the sealed one opened with the master key |
| KeyStore.CCryptoKeyStore.HaveKey | src/crypter.h:178-187 | whether the id is filed in the map in use |
| KeyStore.CCryptoKeyStore.GetKeys | src/crypter.h:190-204 | exactly the ids the store has |
| KeyStore.CCryptoKeyStore.EncryptAndUnlock | src/crypter.cpp:237-363 | encryption followed by unlocking with the same master key changes no answer |
| KeyStore.UnlockLogged | src/crypter.cpp:237-264 | a master key that opens the first key is the one all keys were sealed with, if a wrong one never yields the public key |
| KeyStore.LoggedAnswers | src/crypter.cpp:300-322 | an unlocked store yields the key logged for every id it has |
| KeyStore.CCryptoKeyStore.Run | src/crypter.cpp:212-363 | in any run of adding, locking, unlocking and encrypting, an unlocked store yields for every id it has the key last added, and it has all of them unless an encryption failed on the way |
| Bloom.ShortcutsAgree | src/bloom.cpp:67-81 | with true flags and a hash function the shortcuts never change the bit test |
| Bloom.InsertedGrows | src/bloom.cpp:40-51 | insertion sets the bits of the key and keeps all others |
| Bloom.WithAdds | src/bloom.cpp:40-51 | bits of a byte are numbered from the least significant one, and one byte changes |
| Bloom.InsertedStays | src/bloom.cpp:40-81 | a key once inserted is contained after any later insertions, updates and matches |
| Bloom.WithoutHashFunctions | src/bloom.cpp:40-182 | without hash functions an inserted key is contained after any run exactly when some bit is set or no update comes after the last insertion |
| Bloom.LostInNewFilter | src/bloom.cpp:40-81 | in a new filter without hash functions an update loses the inserted key and inserting another one brings it back |
| Bloom.MatchedIsAdded | src/bloom.cpp:114-144 | under BLOOM_UPDATE_ALL every matched output is in the filter afterwards, under BLOOM_UPDATE_P2PUBKEY_ONLY every matched output that pays to public keys |
| Bloom.NothingAdded | src/bloom.cpp:119-131 | under other flags, or without a matching output that pays to public keys, the filter stays |
| Bloom.MentionIsRelevant | src/bloom.cpp:102-169 | a transaction with a contained hash, outpoint or data element is relevant |
| Bloom.RelevantMentions | src/bloom.cpp:102-169 | and only such a one is |
| Bloom.SpendIsRelevant | src/bloom.cpp:102-169 | under either flag a transaction that spends such an output is relevant, also after later growth (BIP 37, Filter matching algorithm) |
| Bloom.CBloomFilter.InsertKey | src/bloom.cpp:40-51 | the filter after an insertion; a full one is left alone |
| Bloom.CBloomFilter.ContainsKey | src/bloom.cpp:67-81 | the answer by flags and bit test |
| Bloom.CBloomFilter.UpdateEmptyFull | src/bloom.cpp:171-182 | the flags become exactly full and empty |
| Bloom.CBloomFilter.IsRelevantAndUpdate | src/bloom.cpp:102-169 | the verdict is about the filter before the call, and the filter afterwards holds the matched outputs its flags ask for |

## Left out

- Networking, relaying, logging, user interface signals, threads and locks, disk files: each locked operation is one step.
- Address manager: `Select_` and `GetChance` (probabilistic loops), 32-bit overflow of the id counter and 64-bit overflow
  of times, streams written with another bucket count (read by the model, no theorem), and the empty entry that the
  run-time check may insert into the address map. Each operation reads the clock once. Service flags are a set.
- Keccak with 32-bit words and the other unrolling counts; tables of Groestl, AES, BLAKE and BMW, and their compression
  functions, which are parameters.
- Blake.Close: gives the chaining value; its words in big-endian order and the initialisation that follows are left out.
- Echo.Close: gives the chaining value; its words in little-endian order are left out.
- Groestl.Close: gives the chaining value before the output transformation, which needs the tables, and before its encoding.
- Jh.Close: gives the final value; the half of it that is written out is left out, and the length field is stated modulo
  2^73, because the block counter has 64 bits.
- CubeHash.Close: gives the final words; writing the first of them out in little-endian order is left out.
- The small variants of Groestl and BMW, whose drivers differ in block size only.
- CubeHash: the 96 assignments of a round macro are grouped by their index pattern into loops over the same indices.
- Darksend client side: the messages `dsf`, `dsc` and `dssu`, denominating, coin selection, fee charging. A masternode never submits to
  another one, so the address test in front of `dsf` and `dsc` is never passed. Signature and transaction validity are
  verdicts given with the event. Inputs of different entries differ as wholes, scripts included, as in the source; two of
  them may share an outpoint.
- Darksend entries keep no time stamp: which entries have expired is given with the timer event.
- Stake kernels (`CheckStakeKernelHash`), which need transactions and OpenSSL; `CheckCoinStakeTimestamp`, a single test.
- StakeModifier.ComputeNextStakeModifier: blocks outside the main chain are not modelled, so the previous block is on it.
- Base58 strings hold no NUL character; hexadecimal strings of the converter are lists of digit values, and its behaviour
  is that of Python 3 (under Python 2 a long number prints with a trailing letter).
- BigNum: `SetHex`, `ToString` and the 256-bit conversions, which repeat the loops that are modelled. OpenSSL's MPI format
  is a function.
- LockedPages: addresses are unbounded; a range whose last page is the last page of the address space is not modelled.
- InstantX: the table of votes for unknown transactions only limits relaying. A cleanup reads the clock once.
- Alerts: which clients an alert applies to, and notification.
- KeyStore: scripts and stealth keys; the strength of the ciphers, of which the runs need that a wrong master key never yields
  the matching public key.
- Bloom: the sizes computed in the constructor by floating point; parsing of scripts, whose data elements are given.
