# A verified model of acctl

acctl is a Wi-Fi access-point controller: a server (`ac`) hands out addresses and
commands to access points (`ap`) that register with it over layer 2.  This project
models six of its components in Dafny and proves what they are for.

- **Streaming MD5** (`Words`, `Digits`, `Chaining`, `Padding`, `Rfc1321`,
  `RoundFunctions`, `Rfc1321Example`, `Md5`, `Md5Stream`).  `Rfc1321` is a short functional reading of sections 3.1 to 3.5 of
  RFC 1321.  The unrolled compression computes its 64 table-driven steps, and
  however a message is cut into updates, the digest is the one of the RFC
  (`Md5Stream.DigestInPieces`).  That reading is tied down by what its functions do to
  bits, by the arithmetic of its byte order, and by an example of the RFC
  (`Rfc1321Example.AbcDigest`).
- **The packet digest** (`Chap`): filling and comparing the `chap` field, down to
  the bytes of the packet and up to the fields of its header.
- **The registration handshake** (`RandomRing`, `Handshake`, `Replies`, `Messages`).  One
  controller, any number of access points, and a network that drops, repeats,
  reorders, redirects, alters and invents packets.  In every run, every accepted
  response answers a registration of the access point that accepts it
  (`Handshake.Agreement`).  In every run in which there is a free address at each
  granted registration, no two access points accept the same address
  (`Handshake.AddressesDisjoint`).  Without that condition they can: a registration
  delivered twice to a controller with an exhausted pool is answered with an address
  that another access point has (`Handshake.SharedAfterExhaustion`).  From every
  reachable state an unregistered access point can be registered, unless its draw is
  a tenth one (`Handshake.Round`).  `Replies` says which packet answers which, and
  with which address.  `Messages` has the handlers themselves, over the
  real ring of randoms and the real pool, and proves that they take those steps.
- **The address pool** (`Common`, `List`, `PoolModel`, `IpPool`, `ByteOrder`, `Reload`): the
  intrusive circular lists as heap structures, the allocator on top of them, and
  the range arithmetic that fills it.
- **The tail-pointer queues** (`TailList`, `SockArr`, `MessageQueue`,
  `QueueSteps`, `QueueProgress`): two as heap structures, and the controller's queue
  as a step machine in which any number of producers interleave, statement by
  statement, with a consumer that tests for emptiness outside the lock.  No
  interleaving loses or reorders a message, and from every reachable state all
  messages can still be delivered (`QueueProgress.EverythingDelivered`).
- **The JSON reader and its printer** (`JsonModel`, `JsonReader`, `JsonRoundTrip`,
  `JsonPrinter`, `JsonNesting`, `JsonNestedReader`, `JsonDocuments`).  The reader's
  loop and buffers compute a character machine, and printing and reading undo each
  other.  Objects and arrays that read each other end on every text, for templates
  nested in any way, and documents of any depth are read to their end.

`dafny verify dfyconfig.toml` checks the whole project.

## How the pieces are stated

Code that changes memory is a class or an array method whose contract equates the
new state with a function of the old one; what the source promises is then proved
about those functions.  A ghost field records the value a structure stands for:
the bytes fed to MD5, the nodes of a ring, the history of randoms.

Integers are unbounded, and every 32-bit wrap-around is written out; the words of
the compression function are bit vectors.  A `T **` is "the head slot, or the next
slot of a node".  In the handshake the digest is idealised: it is an injective
function of the packet and the random, and only who knows the password can
compute it.  Randoms are fresh and not zero.

## Where the code does something else than one might expect

Each of these is a lemma or a contract, and the code's behaviour is the one
modelled.

- The block loop of `MD5Update` tests `i + 64 <= inputlen` in 32 bits.  The test is
  right exactly when `LoopIndexFits` holds (`Md5Stream.LoopIndexFitsExactly`); all
  inputs shorter than 2^32 - 64 bytes are covered (`Md5Stream.ShortInputFits`).
- The guard of `res_ip_alloc` never refuses, not even for an exhausted pool
  (`IpPool.Pool.NoIpInPool`).  The head of the free list is then taken for an entry
  and moved into the held list (`IpPool.Pool.IpAlloc`), and as many allocations
  without a wish as there are held addresses hand these out again, in the order of
  the list (`IpPool.Pool.AllocAgain`).
- An access point that registers again with the address it holds is given another
  one and keeps both (`PoolModel.RenewalTakesAnother`): `res_ip_conflict` lets its
  request pass, but only free addresses are searched.  A wish is granted if and
  only if the address is free (`PoolModel.AllocAnswers`).
- `get_random` at offset 0, after every tenth random, reads the memory before the
  ring instead of the newest entry (`RandomRing.AnswerAtZero`), so that it never
  finds the newest random (`RandomRing.LatestAtZero`).  At any other offset it
  returns the newest random of a controller exactly when no other controller
  broadcast since, or there is only one in the ring (`RandomRing.LookupIsLatest`);
  otherwise an older one (`RandomRing.LookupMissesLatest`).
- So the answer to a registration is refused whenever its random was a tenth draw:
  an access point takes a response to its newest random if and only if its ring is
  not at offset 0 and the response comes from the controller that random was drawn
  for (`Handshake.AcceptsExactly`).
- A response accepted while a connection is open closes it, but no new one is
  opened, because its number is still there (`Messages.AccessPoint.Register`).
- A string value of exactly `len` characters is taken and stored without a
  terminating NUL (`JsonRoundTrip.StoredValue`, `JsonRoundTrip.LongValue`).
- The brace of an empty object does not end the parse.  The read succeeds with
  `end` behind the object if and only if only white space follows
  (`JsonRoundTrip.EmptyObjectGoesOn`).
- An object whose text ends early is read with success.  Within an array the next
  test then refuses it (`JsonNesting.TruncatedRefused`).
- A result row that does not fit its buffer ends the program in an assertion,
  unless exactly two characters are left before a column: then the remaining
  columns are dropped without notice (`JsonPrinter.PrintsWholeRow`).
- A second round of the row loop overwrites the closing brace of the first row,
  and the reader refuses the text (`JsonPrinter.SecondRowRefused`).  The query of
  ac/sql.h:38 asks for one row, so this is a property of the loop that the
  repository does not reach.
- The range check of `res_ip_reload` refuses ascending ranges of 2^31 addresses or
  more and takes the descending ones whose difference wraps around to fewer
  (`Reload.RangeCheck`).  The latter needs 32 host bits; what is loaded then is
  what lies outside the range (`Reload.DescendingLoaded`).
- After a comparison the `chap` field of a packet is zero, so comparing the same
  buffer again fails unless the digest is zero (`Chap.SecondComparison`).

## Model

| member | source | states |
|---|---|---|
| Words.WordAtEncoded | lib/md5.c:70-95 | decoding the bytes of encoded words gives back each word, low-order byte first |
| Words.EncodedWordAt | lib/md5.c:70-95 | encoding a decoded word gives back its four bytes |
| Words.ToWordValue | include/md5.h:21-26 | a 32-bit pattern is the pattern of the number it stands for |
| Padding.ZeroCount | lib/md5.c:63-66 | the least number of zero bytes that brings the length to 56 modulo 64 |
| Padding.Padded | lib/md5.c:63-67 | the padded message is a whole number of blocks and starts with the message |
| Md5.RotateIsCircular | include/md5.h:33-33 | for each of the sixteen shift amounts ROTATE_LEFT is the circular shift, given as the upper half of the shifted doubled word |
| Md5.FF | include/md5.h:34-39 | one step of round 1 of the RFC |
| Md5.GG | include/md5.h:40-45 | one step of round 2 |
| Md5.HH | include/md5.h:46-51 | one step of round 3 |
| Md5.II | include/md5.h:52-57 | one step of round 4 |
| Md5.Advance | lib/md5.c:104-173 | one macro call with the word, shift and constant of the tables is one more of the 64 steps |
| Md5.RoundOne | lib/md5.c:104-119 | lines 1 to 16 compute steps 0 to 15 of the table-driven loop |
| Md5.RoundTwo | lib/md5.c:122-137 | lines 17 to 32 compute steps 16 to 31 |
| Md5.RoundThree | lib/md5.c:140-155 | lines 33 to 48 compute steps 32 to 47 |
| Md5.RoundFour | lib/md5.c:158-173 | lines 49 to 64 compute steps 48 to 63 |
| Md5.MD5Transform | lib/md5.c:96-178 | for every state and block, the state becomes that of the RFC's 64 steps plus the old one |
| Md5.MD5Decode | lib/md5.c:83-95 | each output word is the little-endian value of its four bytes; the rest of the output is unchanged |
| Digits.WordBytesAreDigits | lib/md5.c:70-82 | the bytes of a word are the digits of its number in base 256, low-order digit first |
| Digits.WordAtIsNumber | lib/md5.c:83-95 | the word read from four bytes is the number of these digits |
| Digits.ValueToWord | include/md5.h:21-26 | a number below 2^32 is the number of its bit pattern |
| Digits.LengthFieldIsNumber | lib/md5.c:65-65 | the eight bytes of the length field are the digits of 8 times the length modulo 2^64 |
| RoundFunctions.FChooses | include/md5.h:29-29 | F takes the bits of y where x is set and those of z elsewhere |
| RoundFunctions.GChooses | include/md5.h:30-30 | G takes the bits of x where z is set and those of y elsewhere |
| RoundFunctions.HIsParity | include/md5.h:31-31 | H is x where y and z agree and its complement elsewhere |
| RoundFunctions.IChooses | include/md5.h:32-32 | I is the complement of y where x is set or z is not, and y elsewhere |
| RoundFunctions.MacrosAreAuxiliary | include/md5.h:29-32 | the four macros are the four functions of the RFC |
| RoundFunctions.CircularShiftUp | include/md5.h:33-33 | a circular shift by s moves the low bits up by s |
| RoundFunctions.CircularShiftAround | include/md5.h:33-33 | and the s high bits to the low end |
| Chaining.AbsorbAppend | lib/md5.c:48-50 | folding over whole blocks and then over more data is folding over both |
| Chaining.FirstBlock | lib/md5.c:47-48 | completing the buffered bytes from the input and compressing absorbs one more block of the whole data |
| Chaining.NextBlock | lib/md5.c:49-50 | compressing the next 64 bytes absorbs one more block |
| Chaining.NoBlock | lib/md5.c:53-57 | input that completes no block leaves the fold unchanged |
| Md5Stream.CounterAdvances | lib/md5.c:40-43 | the two counter words stay 8 times the number of bytes modulo 2^64, across all carries |
| Md5Stream.BufferIndex | lib/md5.c:38-38 | the index taken from the counter is the number of bytes modulo 64 |
| Md5Stream.ShortInputFits | lib/md5.c:49-49 | for inputs shorter than 2^32 - 64 bytes the loop test does not wrap |
| Md5Stream.LoopIndexFitsExactly | lib/md5.c:49-49 | the last loop test is right if and only if LoopIndexFits holds; otherwise it succeeds with fewer than 64 bytes left |
| Md5Stream.MD5Encode | lib/md5.c:70-82 | the output starts with the little-endian bytes of the words; the rest is unchanged |
| Md5Stream.Transform | lib/md5.c:48-50 | the unrolled transform applies the compression function to the state |
| Md5Stream.Stream.Init | lib/md5.c:26-34 | the context stands for the empty input |
| Md5Stream.Stream.CountBytes | lib/md5.c:40-43 | the counter goes from 8n to 8(n + len), modulo 2^64 |
| Md5Stream.Stream.Index | lib/md5.c:38-38 | the fill of the buffer |
| Md5Stream.Stream.Update | lib/md5.c:35-58 | the state is the fold over all complete blocks of everything fed, the buffer starts with the rest, and the input is appended to what was fed |
| Md5Stream.Stream.AbsorbInput | lib/md5.c:45-52 | the branch that completes the buffered block absorbs every complete block and leaves the rest of the input |
| Md5Stream.Stream.AbsorbBlocks | lib/md5.c:49-50 | the block loop absorbs whole blocks until fewer than 64 bytes are left |
| Md5Stream.Stream.KeepRest | lib/md5.c:57-57 | what completes no block is in the buffer |
| Md5Stream.PaddingPrefix | lib/md5.c:63-66 | padlen is between 1 and 64, brings the length to 56 modulo 64, and selects the padding bytes of the RFC |
| Md5Stream.Stream.EncodedCount | lib/md5.c:65-65 | the eight bytes are the little-endian bit count modulo 2^64 |
| Md5Stream.Stream.Pad | lib/md5.c:63-67 | after the two updates the padded message of the RFC has been fed |
| Md5Stream.MD5Final | lib/md5.c:59-69 | the digest is that of the RFC for everything that was fed |
| Md5Stream.DigestInPieces | lib/md5.c:26-69 | however a message is cut into updates, init, updates and final give the RFC's digest of the whole message |
| Rfc1321Example.AbcDigest | lib/md5.c:26-69 | the digest of "abc" is that of section A.5 of the RFC, through padding, decoding, the 64 steps and the output |
| Rfc1321Example.AbcInPieces | lib/md5.c:26-69 | the code computes this digest however "abc" is cut into updates |
| Chap.ChapGetMd5 | lib/chap.c:34-48 | MD5 of the data, the random's bytes as the host stores them and the password, in this order |
| Chap.ChapCmpMd5 | lib/chap.c:50-66 | -1 if the allocation fails; otherwise 0 if and only if the given digest is that MD5 |
| Chap.FieldsAt | include/msg.h:43-49 | the packed header has random, chap, acuuid, mac and msg_type at bytes 0, 4, 20, 70 and 76, and the payload behind byte 80 |
| Chap.CarriesOne | include/msg.h:43-49 | a packet has one header and one payload |
| Chap.SetsChapOnly | lib/chap.c:68-80 | what is compared and overwritten is the chap field of the header, and no other field |
| Chap.SealsHeader | lib/chap.c:68-80 | a packet is authentic if and only if its chap field is the MD5 of its other fields, the payload, the random and the password |
| Chap.ChapMsgCmpMd5 | lib/chap.c:68-74 | 0 if and only if the allocation succeeds and the chap field is the MD5 of the packet with a zero chap field, the random and the password; the header afterwards is the same but for a zero chap field |
| Chap.ChapFillMsgMd5 | lib/chap.c:76-80 | the header afterwards is the same but for the chap field, which is that digest; the payload is unchanged |
| Chap.FilledIsAuthentic | lib/chap.c:68-80 | a filled packet passes the comparison with the same random, and what the field held before does not matter |
| Chap.SecondComparison | lib/chap.c:68-74 | a compared packet passes a second comparison if and only if its digest is zero |
| Chap.WithChap | lib/chap.c:68-80 | the bytes of the chap field are replaced and all others kept; SetsChapOnly says which these are |
| List.InitListHead | include/list.h:46-50 | a ring of one |
| List.ListAddBetween | include/list.h:58-66 | the entry stands between two known neighbours of the ring |
| List.ListAdd | include/list.h:76-79 | the entry is the first after the head |
| List.ListAddTail | include/list.h:90-93 | the entry is the last |
| List.ListDelEntry | include/list.h:102-117 | the ring without the entry, which keeps its own links |
| List.ListDel | include/list.h:119-124 | the ring without the entry, whose links are poisoned |
| List.ListDelInit | include/list.h:153-157 | the ring without the entry, which is a ring of one |
| List.ListReplace | include/list.h:133-140 | the new entry takes the old one's place, also when the old one is alone |
| List.ListReplaceInit | include/list.h:142-147 | the same, and the old entry is a ring of one |
| List.ListMove | include/list.h:164-168 | the entry leaves its ring and is the first of the other one, or of its own |
| List.ListMoveTail | include/list.h:175-180 | the entry leaves its ring and is the last of the other one, or of its own |
| List.ListIsLast | include/list.h:187-191 | true exactly for the last entry |
| List.ListEmpty | include/list.h:197-200 | true exactly for a head without entries |
| List.ListIsSingular | include/list.h:239-242 | true exactly for a head with one entry |
| List.ListRotateLeft | include/list.h:225-233 | the first entry becomes the last |
| List.RotateAllTheWay | include/list.h:225-233 | as many rotations as a sequence has elements restore it |
| List.RotateAround | include/list.h:225-233 | n calls of list_rotate_left on a list of n entries restore every link |
| List.ListCutAt | include/list.h:244-254 | the entries up to the given one move to the new head, the others stay |
| List.ListCutPosition | include/list.h:270-282 | the same, with the empty list, the head as entry and a foreign entry of a list of one treated as documented |
| List.ListSpliceBetween | include/list.h:284-296 | the entries of a list stand between two neighbours of another |
| List.ListSplice | include/list.h:303-308 | the entries of the list come first in the other one |
| List.ListSpliceTail | include/list.h:315-320 | the entries of the list come last in the other one |
| List.ListSpliceInit | include/list.h:329-336 | as list_splice, and the emptied list is a ring of one |
| List.ListSpliceTailInit | include/list.h:346-353 | as list_splice_tail, and the emptied list is a ring of one |
| List.SameRingSameLinks | include/list.h:46-66 | a ring determines every link of its nodes |
| List.CutThenSplice | include/list.h:270-308 | cutting at any entry, or the head, and splicing the piece back restores every link of the list |
| PoolModel.AllocAnswers | ac/resource.c:36-77 | an allocation answers the requested address if and only if it is free, otherwise the first free one, and the MAC owns it |
| PoolModel.ApplyKeeps | ac/resource.c:36-154 | adding and allocating keep all addresses distinct, lose none, and keep every owner |
| PoolModel.RunKeeps | ac/resource.c:36-154 | the same over every run of additions and allocations |
| PoolModel.OneOwner | ac/resource.c:36-77 | a held address has one owner and is not free |
| PoolModel.ConflictMeansOther | ac/resource.c:87-109 | the check says yes if and only if the address is not zero and another MAC holds it |
| PoolModel.RenewalTakesAnother | ac/resource.c:36-109 | asking again for a held address passes the check, takes the first free one and keeps the old one |
| IpPool.Find | ac/resource.c:117-120 | the first entry of a ring with the address, or the head |
| IpPool.Pool.Init | ac/resource.c:176-190 | both lists are empty and both counters zero |
| IpPool.Pool.Repeat | ac/resource.c:111-127 | true exactly for an address that is free or held |
| IpPool.Pool.IpConflict | ac/resource.c:87-109 | true exactly when another MAC holds the non-zero address |
| IpPool.Pool.IpAdd | ac/resource.c:129-154 | a known address, or a failing allocation, is refused with -1; any other address is appended to the free list and counted |
| IpPool.Pool.Take | ac/resource.c:51-53 | the counter goes down and the entry, with its new owner, is the first of the held list, whether it comes from the free list, is the head of an empty one, or stands in the held list itself |
| IpPool.Pool.NoIpInPool | ac/resource.c:40-43 | the guard never refuses |
| IpPool.Pool.FirstEntry | ac/resource.c:49-50 | the first entry is the list head exactly when no address is free; after an exhausted allocation it is the entry of the held list behind that head |
| IpPool.Pool.AllocFound | ac/resource.c:59-67 | the branch for a free address takes exactly that address |
| IpPool.Pool.AllocFirst | ac/resource.c:46-55 | the branch without a wish takes the first free address, or else the head of the free list, and after that the held entry behind that head, which goes to the front of the held list |
| IpPool.Pool.IpAlloc | ac/resource.c:36-77 | with a free address, lists and counters afterwards stand for the allocation of PoolModel and the returned entry carries the address and its owner; without one, the head of the free list is returned and stands in the held list; the allocations after that, without a wish, return the held entry behind it |
| IpPool.Pool.AllocAgain | ac/resource.c:36-57 | behind an exhausted pool, n allocations without a wish hand out the first n held addresses in the order of the list, for any n up to the number of held addresses |
| ByteOrder.HtonlTwice | ac/resource.c:205-206 | converting twice gives back the address |
| ByteOrder.HtonlSwaps | ac/resource.c:205-206 | the four bytes of an address stand in the opposite order |
| ByteOrder.HtonlInjective | ac/resource.c:205-206 | different addresses stay different in network order |
| Reload.HostsLoadOnce | ac/resource.c:205-206 | on hosts of either byte order htonl is injective, as the results about loading ask for |
| Reload.AndHostBits | ac/resource.c:232-233 | masking with the complement of the mask leaves the host part |
| Reload.NoCarry | ac/resource.c:254-254 | adding a host number to the network address does not carry into the network bits |
| Reload.RangeCheck | ac/resource.c:232-237 | the signed check passes if and only if the range ascends and has fewer than 2^31 addresses, or descends over more than 2^31 |
| Reload.LoadRange | ac/resource.c:232-251 | for any start, end and mask, the first address and the count in 32-bit arithmetic, less the network and the broadcast address |
| Reload.LoadedOnce | ac/resource.c:232-258 | for any mask, no address is loaded twice |
| Reload.LoadedExactly | ac/resource.c:232-258 | for a contiguous mask, the loaded addresses are exactly those with the network part of start and a host number in the range other than network and broadcast, if it ascends and has fewer than 2^31 addresses; up to 31 host bits any other range loads nothing |
| Reload.DescendingLoaded | ac/resource.c:232-258 | with 32 host bits, a descending range over more than 2^31 addresses loads exactly what lies outside it, any other descending range nothing |
| Reload.AddAll | ac/resource.c:254-258 | the loop adds the addresses in order, but for those whose calloc fails; no other is refused |
| Reload.IpReload | ac/resource.c:207-259 | for any start, end and mask, an empty pool holds exactly these addresses afterwards, less those whose calloc failed, all free, and left = total = their number |
| RandomRing.Ring.NewRandom | ap/process.c:136-145 | the pair is appended to the history, of which the ring holds the last ten |
| RandomRing.Ring.GetRandom | ap/process.c:147-156 | for every offset and MAC, the random of the first entry for the MAC among those the loop visits, or 0; at offset 0 the first visited is the memory before the ring |
| RandomRing.AnswerIssued | ap/process.c:147-156 | the answer is 0 or a random issued to that MAC, unless offset 0 meets memory that reads as an entry for it |
| RandomRing.AnswerIsLookup | ap/process.c:147-156 | at other offsets the answer is the newest entry if it is for the MAC, otherwise the oldest surviving one for it, otherwise 0 |
| RandomRing.AnswerAtZero | ap/process.c:147-156 | at offset 0 it is the memory before the ring if that reads as an entry for the MAC, otherwise the oldest of all entries but the newest |
| RandomRing.LatestAtZero | ap/process.c:147-156 | at offset 0 the answer is the latest random of the MAC if and only if the newest entry is another's and it has only one in the ring |
| RandomRing.LookupIsLatest | ap/process.c:147-156 | at other offsets the answer is the latest random of the MAC if and only if it is the newest of all or the only one for it in the ring |
| RandomRing.LookupMissesLatest | ap/process.c:147-156 | a history in which it is not |
| Handshake.GrantKeeps | ac/process.c:126-134 | with a free address, granting keeps the pool well formed and every owner, and the MAC holds the granted address |
| Handshake.GrantAnswers | ac/process.c:126-134 | with a free address, the address asked for is granted if it is free, otherwise the first free one; it moves to the front of the held list with its owner, and the others keep their order |
| Handshake.PoolStaysWf | ac/resource.c:36-77 | in every state of every run the addresses of the pool are distinct |
| Handshake.AcGetsKeeps | ac/process.c:107-160 | whatever packet the controller handles, every response stays keyed by a random that an access point drew |
| Handshake.AcGetsOwned | ac/process.c:107-160 | with a free address, the address in every response stays held by the access point that drew its key |
| Handshake.HistoryGrows | ap/process.c:158-212 | an access point answers only with a random it has just drawn and recorded, and never forgets that it drew one |
| Handshake.AcceptedIsOwn | ap/process.c:278-283 | a response that passes the check was sealed, with a random of this very access point |
| Handshake.ApGetsKeeps | ap/process.c:158-301 | whatever packet an access point handles, the keys stay owned |
| Handshake.ApGetsOwned | ap/process.c:158-301 | whatever packet an access point handles, it holds every address it accepted |
| Handshake.StepKeeps | ac/net.c:147-159 | every step of the system, broadcasts included, keeps both |
| Handshake.RunKeeps | ap/process.c:158-301 | keys are owned in every state of every run, addresses in every run in which the pool lasts |
| Handshake.AddressesDisjoint | ap/process.c:285-300 | in no run with a free address at every granted registration do two access points accept the same address |
| Handshake.Replay | ac/process.c:107-160 | a registration that is delivered once more is answered once more, with what res_ip_alloc gives then |
| Handshake.SharedAfterExhaustion | ac/resource.c:36-57 | from every reachable state with an exhausted pool, another access point registers without a wish and its registration is delivered twice: whatever the first answer is, the second is the address that was given out last, and both access points have accepted it |
| Handshake.Origin | lib/chap.c:76-80 | every digest on the network was put there by an earlier step of the run |
| Handshake.Agreement | ap/process.c:278-300 | an accepted response was sent before, identical in every field, for a registration that the controller verified against its random of that moment and that this access point had sent before |
| Handshake.StepIdentifies | ap/process.c:285-300 | no step unregisters an access point or gives it the identity of anyone but the controller |
| Handshake.RegisteredForGood | ap/process.c:285-300 | in every run an access point once registered stays registered and has the controller's uuid, MAC and, if it has one, server address |
| Handshake.Registering | ap/process.c:158-179 | a broadcast makes an unregistered access point record a new random and send a sealed registration with it |
| Handshake.Answering | ac/process.c:121-157 | a registration that verifies is answered with what res_ip_alloc gives, and the pool changes as that does |
| Handshake.AcceptsExactly | ap/process.c:147-156 | in every reachable state, a response to the newest random is accepted if and only if the ring is not at offset 0 and the response has the MAC that random was drawn for |
| Handshake.Round | ac/process.c:107-160 | from every reachable state, a broadcast makes an unregistered access point register, the controller answers what res_ip_alloc gives and nobody else is affected; the access point accepts the answer if and only if its draw was not a tenth one |
| Handshake.Delivery | ap/process.c:269-301 | a response to the newest random, with the ring not at offset 0, registers the access point with its address |
| Handshake.HandshakeCompletes | ac/process.c:107-160 | with a free address, and a draw that is not a tenth one, four steps register the access point with the address it asks for if that is free, otherwise with the first free one |
| Replies.RegistrationAnswered | ac/process.c:121-157 | in every run with a free address, a registration that verifies is answered with the address it asks for if that is free, otherwise with the first free one; that address goes to the sender and nothing else changes |
| Replies.WishGranted | ac/resource.c:36-77 | a wish is granted if and only if it is free, and not if it is held |
| Replies.ExhaustedAnswered | ac/resource.c:36-57 | without a free address no address changes its owner; the first answer is memory before the list head, the next ones without a wish are the held addresses in order |
| Replies.OthersIgnored | ac/process.c:121-124 | a packet that is not a registration that verifies is not answered and changes nothing in the controller |
| Replies.PoolUntouched | ac/process.c:107-160 | over any stretch of a run without a registration that verifies the pool stays the same |
| Replies.AddressesConserved | ac/resource.c:36-77 | in every run in which the pool lasts, no address is lost or made up, and as many are held as registrations were granted |
| Replies.BroadcastHeard | ap/process.c:158-212 | which of the three answers a broadcast gets, each if and only if: a registration, a report or nothing; what it says, and that only the ring of randoms changes |
| Replies.OthersNotAnswered | ap/process.c:269-332 | no other packet is answered, and only a response that is accepted changes the access point |
| Replies.RegistersAgain | ap/process.c:181-212 | in every run, a registered access point registers again only for a broadcast of another uuid that names its controller for takeover |
| Replies.RegistersOnce | ap/process.c:181-212 | in a run without such a broadcast it never registers again |
| Messages.AccessPoint.AcReconnect | ap/process.c:48-75 | a connection is opened exactly when a server is known, none is open and connecting succeeds |
| Messages.AccessPoint.ProcBrd | ap/process.c:158-179 | the ring records a new random and the sealed registration carries it |
| Messages.AccessPoint.ProcBrdIsReg | ap/process.c:181-212 | the own controller is ignored; for a takeover an open connection is closed and the access point registers; others are told |
| Messages.AccessPoint.Register | ap/process.c:285-300 | the state becomes that of a registered access point; an open connection is closed but keeps its number |
| Messages.AccessPoint.ProcRegResp | ap/process.c:269-301 | this happens if the response verifies, and nothing changes otherwise |
| Messages.AccessPoint.MsgProc | ap/process.c:314-332 | for every packet, state and packet sent are those of the access point's step in Handshake, and the connection is closed and opened as stated above |
| Messages.Controller.Broadcast | ac/net.c:147-159 | only the current random changes, and the broadcast carries it without a digest |
| Messages.Controller.Allocate | ac/process.c:126-134 | conflict check and allocation give what Handshake's controller gives, with lists that are apart or spliced |
| Messages.Controller.Respond | ac/process.c:145-159 | the response carries the address, sealed with the random of the registration, and is counted |
| Messages.Controller.ApReg | ac/process.c:107-160 | state, pool and packet sent are those of the controller's step in Handshake, and registrations are counted; a registration granted without a free address leaves the lists spliced, and those after it are answered from the held list |
| Messages.Controller.ApRegTwice | ac/process.c:107-160 | a registration without a wish, delivered twice to a controller with an exhausted pool, is answered the second time with the held address that was given out last |
| Messages.Controller.MsgProc | ac/process.c:195-212 | the same for every packet; packets other than registrations change nothing |
| SockArr.SockList.Insert | lib/link.c:174-177 | the socket is appended, by a write through the tail slot |
| SockArr.SockList.Delete | lib/link.c:182-212 | exactly the first node with the socket is removed, and the tail slot is that of the last node again |
| TailList.RemoveFirstAt | lib/link.c:192-209 | removing the first occurrence keeps everything before and after it in order |
| MessageQueue.Queue.Insert | ap/message.c:39-49 | the message is appended and counted |
| MessageQueue.Queue.Delete | ap/message.c:51-70 | the oldest message, or NULL exactly when there is none; the rest keeps its order |
| QueueSteps.Link | ac/aphash.c:147-147 | linking under the lock appends the message to the queue and keeps the invariant |
| QueueSteps.MoveOrCount | ac/aphash.c:148-149 | moving ptail and counting keep it |
| QueueSteps.EnterDelete | ac/aphash.c:155-161 | a message seen before the lock was taken is still there after it |
| QueueSteps.Unlink | ac/aphash.c:161-162 | unlinking removes exactly the oldest message |
| QueueSteps.LeaveDelete | ac/aphash.c:163-171 | adjusting count and ptail, unlocking and returning keep the invariant |
| QueueSteps.StepKeeps | ac/aphash.c:139-172 | every statement of every thread keeps the invariant |
| QueueSteps.DeliveredOnceInOrder | ac/aphash.c:139-172 | in every interleaving the consumer never dereferences NULL, and every message linked is delivered, in hand or queued, once and in order |
| QueueSteps.WellFormedWhenUnlocked | ac/aphash.c:139-172 | whenever the lock is free, the undelivered messages are linked in order, ptail is behind the last and count is their number |
| QueueProgress.DeliversNext | ac/aphash.c:152-171 | in every reachable state with the lock free and the consumer outside, it alone can go on to deliver exactly the oldest undelivered message, and stays outside if there is none |
| QueueProgress.Drains | ac/aphash.c:195-201 | it alone can deliver everything that is linked, in order |
| QueueProgress.InsertPath | ac/aphash.c:139-150 | the six statements of an insertion link the message and free the lock |
| QueueProgress.Inserts | ac/aphash.c:139-150 | in every reachable state with the lock free, an idle producer alone can link a new message behind all others |
| QueueProgress.ComesToRest | ac/aphash.c:139-171 | from every reachable state the threads can go on until the lock is free and the consumer outside: there is no deadlock |
| QueueProgress.EverythingDelivered | ac/aphash.c:139-201 | from every reachable state they can go on until every message linked so far is delivered, in order |
| JsonModel.Step | lib/mjson.c:260-565 | for string attributes, every case of the switch keeps the cursor in the template, and only a token pushes its character back |
| JsonReader.Reader.FindAttr | lib/mjson.c:299-304 | the first template entry with the collected name, or the end of the template |
| JsonReader.Reader.OnInit | lib/mjson.c:261-273 | the buffers and state follow the machine in state init |
| JsonReader.Reader.OnAwaitAttr | lib/mjson.c:274-290 | in state await_attr |
| JsonReader.Reader.OnInAttr | lib/mjson.c:291-328 | in state in_attr, without leaving the name buffer |
| JsonReader.Reader.OnAwaitValue | lib/mjson.c:329-360 | in state await_value |
| JsonReader.Reader.OnInValString | lib/mjson.c:361-378 | in state in_val_string; a closing quote that the C code would write behind the value buffer gives Unmodelled |
| JsonReader.Reader.OnInEscape | lib/mjson.c:379-411 | in state in_escape; a \u escape, or one that the C code would write behind the value buffer, gives Unmodelled |
| JsonReader.Reader.OnInValToken | lib/mjson.c:412-428 | in state in_val_token, with the push-back |
| JsonReader.Reader.StoreValue | lib/mjson.c:513-520 | the field takes the C string in the value buffer |
| JsonReader.Reader.OnPostArray | lib/mjson.c:550-564 | comma, brace or garbage behind a value |
| JsonReader.Reader.OnPostVal | lib/mjson.c:429-564 | in state post_val, for string attributes: the store, then the above |
| JsonReader.Reader.SkipTrailing | lib/mjson.c:568-571 | the white space behind the object is skipped, no more |
| JsonReader.Reader.Loop | lib/mjson.c:256-575 | the loop ends on every input, and code, fields and end are those of the machine |
| JsonReader.StuffDefaults | lib/mjson.c:216-252 | every string field starts with NUL and keeps its other characters |
| JsonReader.JsonReadObject | lib/mjson.c:216-575 | for string attributes, code, fields and end are those of the machine, on every NUL-terminated text |
| JsonRoundTrip.StoredValue | lib/mjson.c:513-520 | a stored value reads back as itself, and is terminated if and only if it is shorter than its field |
| JsonRoundTrip.RoundTrip | lib/mjson.c:256-575 | every attribute of an object is in its field, fields without one are empty, and end is behind the object, whatever the white space between tokens |
| JsonRoundTrip.OrderDoesNotMatter | lib/mjson.c:256-575 | reading two objects with the same attributes in any order, with any white space, leaves the same value in every field |
| JsonRoundTrip.EndsAtRest | lib/mjson.c:568-575 | end is the place of the first non-space after the object |
| JsonRoundTrip.ReadsOneByOne | lib/mjson.c:568-575 | in a concatenation of objects, end of one read is where the next object starts |
| JsonRoundTrip.NotAnObject | lib/mjson.c:266-272 | a text that does not start with a brace, after white space, is refused there |
| JsonRoundTrip.NotAnAttribute | lib/mjson.c:282-289 | in an object, after any attributes, anything but a quote or a brace is refused where it stands |
| JsonRoundTrip.UnknownName | lib/mjson.c:305-311 | in an object, after any attributes, an unknown name is refused with end at its opening quote, and the fields keep what was read before |
| JsonRoundTrip.LongName | lib/mjson.c:322-325 | likewise a name of 31 or more characters |
| JsonRoundTrip.LongValue | lib/mjson.c:371-375 | likewise a string value longer than its field, or than 512 characters, with end at the quote of its name |
| JsonRoundTrip.ArrayRefused | lib/mjson.c:332-339 | likewise an array where a string is expected, with end at its bracket |
| JsonRoundTrip.TokenRefused | lib/mjson.c:412-472 | likewise an unquoted value, which is read up to a comma or brace, looked at again, or to the character behind a white space, with end at the quote of its name |
| JsonRoundTrip.LongToken | lib/mjson.c:422-425 | likewise an unquoted value of more than 512 characters |
| JsonRoundTrip.GarbageRefused | lib/mjson.c:558-563 | garbage after a value is refused where it stands, after the value has been stored |
| JsonRoundTrip.EscapesRead | lib/mjson.c:379-411 | a value written with escapes is stored as the characters they stand for |
| JsonRoundTrip.AnyValueReads | lib/mjson.c:379-411 | every value without NUL that fits, written with the escapes of RFC 8259, is read back as itself |
| JsonRoundTrip.GivesUp | lib/mjson.c:361-411 | Unmodelled is the outcome exactly at a \u escape and where the C code would write behind the value buffer |
| JsonRoundTrip.NeverGivesUp | lib/mjson.c:361-411 | a text without a backslash never has that outcome |
| JsonRoundTrip.EmptyObjectGoesOn | lib/mjson.c:274-290 | for any white space, what follows the brace of an empty object is read as attributes; success with end behind the object if and only if only white space follows |
| JsonNesting.Switch | lib/mjson.c:260-565 | every case of the switch for string and array attributes: only a token pushes its character back, an array is entered at its bracket only, and a return leaves less text |
| JsonNesting.ReadObjectFrom | lib/mjson.c:256-575 | the object loop ends on every text and template, in any of its states; a success uses some of the text unless there is none |
| JsonNesting.ReadElement | lib/mjson.c:640-650 | the same for an object within an array, from its first character on |
| JsonNesting.ReadStored | lib/mjson.c:624-639 | the string of an element ends behind its quote and takes its characters and a NUL of the store, which it does not exceed |
| JsonNesting.ReadElements | lib/mjson.c:608-722 | the array loop ends; a success stops at a closing bracket, and its count exceeds the elements before and not maxlen |
| JsonNesting.ReadArray | lib/mjson.c:579-734 | a success uses some of the text and leaves a closing bracket at end |
| JsonNesting.TruncatedRefused | lib/mjson.c:640-718 | an object read that reaches the end of the text, even one that uses nothing, makes the array fail with BADSUBTRAIL |
| JsonNesting.NothingLeft | lib/mjson.c:256-575 | at the end of the text, in any state, an object read succeeds and uses nothing |
| JsonNesting.ReadsStrings | lib/mjson.c:608-722 | strings that fit the store are read to the bracket and counted if and only if there are at most maxlen, and refused with SUBTOOLONG otherwise |
| JsonNesting.StringsRefused | lib/mjson.c:615-637 | strings that do not fit the store, and are not more than maxlen, are refused with BADSTRING |
| JsonNesting.SameAsParse | lib/mjson.c:256-575 | on templates of strings only, code and end are those of JsonModel's machine |
| JsonNestedReader.StoreAt | lib/mjson.c:624-639 | the loop over the characters of a string element computes ReadStored |
| JsonNestedReader.ReadStringAt | lib/mjson.c:615-639 | the string case, with its one optional white space |
| JsonNestedReader.ReadValueAt | lib/mjson.c:611-705 | the switch over the element type computes ReadValue |
| JsonNestedReader.ElementAt | lib/mjson.c:611-718 | one turn of the array loop, with the character behind the element |
| JsonNestedReader.ReadElementsAt | lib/mjson.c:608-722 | the array loop computes ReadElements and ends |
| JsonNestedReader.ReadArrayAt | lib/mjson.c:579-734 | json_read_array computes ReadArray, and the cursor is at the bracket |
| JsonNestedReader.SeekAt | lib/mjson.c:438-457 | the search for another entry of the same name, for a value without quotes |
| JsonNestedReader.SwitchAt | lib/mjson.c:260-565 | the switch over state and character, on the real buffers, does what Switch says |
| JsonNestedReader.TurnAt | lib/mjson.c:256-566 | one turn of the object loop, the call of json_read_array included, leaves less text or a lower rank |
| JsonNestedReader.ReadObjectAt | lib/mjson.c:256-575 | the object loop computes ReadObjectFrom from its first state, and ends |
| JsonDocuments.ListRead | lib/mjson.c:608-722 | elements that can be read are read to the bracket and counted if and only if there are at most maxlen, and refused with SUBTOOLONG otherwise |
| JsonDocuments.OneSpaceBehind | lib/mjson.c:706-717 | between an element and its separator there may be one white space, but not two |
| JsonDocuments.BooleanReads | lib/mjson.c:689-698 | true and false can be read |
| JsonDocuments.NumberReads | lib/mjson.c:651-688 | a number that strtol or strtod reads to its end can be read |
| JsonDocuments.NotANumber | lib/mjson.c:651-688 | a text of which they read nothing is refused with BADNUM |
| JsonDocuments.TimeReads | lib/mjson.c:613-614 | of a time nothing is read |
| JsonDocuments.OthersRefused | lib/mjson.c:699-704 | arrays of other types are refused with SUBTYPE |
| JsonDocuments.ObjectReads | lib/mjson.c:640-650 | a non-empty object of strings, with any white space, can be read in an array of structures |
| JsonDocuments.ParallelStringsRefused | lib/mjson.c:232-238 | a second object with a string attribute in an array of parallel objects is refused with NOPARSTR |
| JsonDocuments.ArrayIsRead | lib/mjson.c:579-734 | an array of elements that can be read, empty or not, is read to its bracket, whatever the white space around the first bracket |
| JsonDocuments.ArrayEntered | lib/mjson.c:332-343 | the array of an attribute is read, and the object goes on behind its bracket |
| JsonDocuments.GoesOnAfterArray | lib/mjson.c:550-554 | behind the comma after an array the next attribute is read |
| JsonDocuments.NotAnArray | lib/mjson.c:344-349 | anything else in its place is refused with NOBRAK |
| JsonDocuments.UnquotedValue | lib/mjson.c:438-472 | a value without quotes is refused, unless the last neighbouring entry of its name is an array: then it is read over |
| JsonDocuments.ObjectOfArrayRead | lib/mjson.c:256-575 | an object with an array attribute is read to its brace, whatever the white space, and end is the first non-space after it |
| JsonDocuments.NestReads | lib/mjson.c:256-734 | such an object can be read as an element of another array, and so on to any depth |
| JsonPrinter.Writer.Snprintf | include/mjson.h:146-166 | a text that fits is printed with a NUL behind it, one that does not is cut off |
| JsonPrinter.Writer.EncodeStart | include/mjson.h:146-150 | an opening brace is printed and counted, cut off if there is no room |
| JsonPrinter.Writer.Encode | include/mjson.h:152-156 | a name and a value are printed in quotes, with a comma behind them, and counted, cut off if there is no room |
| JsonPrinter.Writer.EncodeEnd | include/mjson.h:158-166 | the assertion holds if and only if two characters are left; then the last comma, if any, is taken back, and a closing brace and a NUL stand at the pointer, which does not move |
| JsonPrinter.Writer.EncodeColumns | ac/sql.c:67-68 | the columns are printed in order, until no more than two characters are left |
| JsonPrinter.Writer.PrintRow | ac/sql.c:64-71 | into any buffer, these columns are printed as one object if it fits with its brace and NUL; otherwise the program ends in the assertion |
| JsonPrinter.PrintsWholeRow | ac/sql.c:67-70 | the whole row is printed if and only if it fits; a shorter one is closed if and only if exactly two characters are left |
| JsonPrinter.PrintedIsObject | include/mjson.h:146-166 | what is printed is an object in the reader's grammar |
| JsonPrinter.PrintThenRead | include/mjson.h:146-166 | reading what was printed succeeds, every column is in its field and the other fields are empty |
| JsonPrinter.PrintAndRead | ac/sql.c:64-71 | a row printed into a fresh buffer that it fits is read back by json_read_object, column by column |
| JsonPrinter.SecondRowRefused | ac/sql.c:64-71 | a second round of the row loop in the same buffer would make the text unreadable |

## Left out

- Md5Stream.Stream.Update: inputs for which the 32-bit loop test wraps (LoopIndexFits fails) are excluded, because the C code then reads beyond its input; LoopIndexFitsExactly shows that these are all.
- IpPool.Pool.IpAlloc: what the exhausted allocation itself answers is whatever the memory before the list head holds, so Handshake lets it be anything.  After it, an allocation with a wish compares memory around the list heads, and one without a wish, when every held entry has been handed out again, takes the head of the held list for an entry; both are left out, and Handshake lets the state be Unknown from there on.
- Messages.Controller.MsgProc: granted registrations of these two kinds are left out, as in IpPool.Pool.IpAlloc; so they are in Messages.Controller.ApReg.
- Reload.IpReload: models the first load, on a pool as res_ip_init leaves it; res_ip_clear leaves freed entries in the lists, so a second load is not modelled.
- Handshake.AcceptedIsOwn: at offset 0, the memory before the ring is taken not to read as an entry for the controller's MAC; RandomRing.AnswerAtZero says what happens otherwise.
- JsonModel.Step: models templates of string attributes, as those of ac/resource.h are, and JsonNesting.Switch adds arrays of strings, objects, numbers, booleans and times, whose elements it reads over without what they store; attributes that are numbers, booleans, characters, enums, times, checks, ignored or without a default are left out, and so are `\u` escapes and characters written behind the value buffer (GivesUp).
- JsonNesting.ReadValue: how far strtol, strtoul and strtod read is a parameter; TIME_ENABLE is not defined.
- JsonReader.Reader.OnAwaitValue: templates with an array attribute are those of JsonNestedReader.
- JsonReader.Reader.OnInValString: a closing quote written behind the value buffer is left out.
- JsonReader.Reader.OnInEscape: `\u` escapes and escapes written behind the value buffer are left out.
- JsonReader.Reader.OnPostVal: only string attributes; the char arrays of the template are values in a field of the reader.
- JsonReader.JsonReadObject: as JsonModel.Step; `end` is never NULL.
- JsonPrinter.Writer.PrintRow: values that are SQL NULL are left out.
- The queue of QueueSteps is a state machine on values, since its subject is the interleaving; messages have names that are never used again, and the drain loop's processing is left out.
- The runs of Handshake start with a loaded pool; `takeover` in a broadcast is any string, because the sender never sets it.
- Locks other than that of QueueSteps: SockArr, MessageQueue and IpPool state what their critical sections do one at a time.
- List: list_empty_careful, the hlist functions and the iterators other than the one of IpPool.Find; container_of is the identity.
- Sockets, epoll, raw frames, threads, ioctl, popen, MySQL, logging, arguments, the user interface, and failures of malloc other than those of ChapCmpMd5 and IpAdd: input, output and foreign code.
- The hash table of access points: its collision path does not insert into the chain it walks.
- Status reports, commands and the length checks on packets.
