# Firedancer tango and util cores: a Dafny model

This project models working code from the Firedancer headers under `seahorn/include/stubs` and proves
what that code promises, for all inputs, all runs and all interleavings.

- **Tag cache** (`TagMap`, `TagCaches`, `TagRuns`): an open-addressed map updated in place by insertion and
  backward-shift deletion, and a ring buffer. Main results: deletion removes exactly the tag and repairs
  reachability (`TagMap.Remove`); over every run the cache is a first-in first-out window of the `depth` tags
  accepted last (`TagRuns.FifoRefinement`), with removals exactly when insertions are safe (`TagRuns.WindowExact`,
  `TagRuns.InsertStays`).
- **Publish and consume** (`LineIndex`, `Frags`, `Link`, `Mcaches`): one producer and any number of consumers on
  an mcache, every load and every store of a metadata field a step of its own. Main results: no torn reads and
  sound overrun reports over every run (`Link.RunWaitSound`), and each poll decided by whether its number is present
  (`Link.PollPresent`); the mcache is a sliding window, also while a publish
  is under way (`Link.QueryWindow`).
- **Credit flow control** (`Fctls`, `FlowControl`): the credit query and update, and the documented transmitter
  loop composed with the link, its receivers' cells read one at a time while they advance. Main result: a reliable
  receiver is never overrun (`FlowControl.NeverOverrun`), everything published can always be delivered to it
  (`FlowControl.CanDeliver`), and the transmitter never deadlocks (`FlowControl.CanAlwaysSend`).
- **Codecs** (`Svw`, `Codes`, `ZigZag`, `Pods`): symmetric variable-width integers, proved bit by bit in `Svw`;
  streams of them read from either end and the pod layout, proved in `Codes` and `Pods` for every code with a few
  laws that `Codes.SvwLawful` shows it has; and zig-zag. Main results: `Codes.BackwardStream`, `Codes.SvwStreams`,
  `Svw.HeadSize`, `Pods.PodListing`, `Pods.PodInjective`.
- **Rejection sampling** (`Rolls`): exact uniformity by counting (`Rolls.AcceptedTotal`).
- **Hashes** (`Hashes`): the hashes and their inverses are mutually inverse permutations.
- **One-shot and turnstile blocks** (`Onces`, `Turnstiles`): safety for any number of threads, and what each does.

`Words` has 64-bit words as bounded integers with the bit operations the C sources use, and the wrap-around of
sequence numbers. Code that works step by step is a method over arrays or object fields, proved equal to a function
of the old state. Concurrent code is a step relation, and its results hold in every state of every finite run of
any length. Sequence numbers in memory wrap at 64 bits; the unbounded numbers behind them are history that steps
never test.

Assumptions: stores and loads become visible in program order, as
`seahorn/include/stubs/fd_mcache.h:558-573` documents for x86; each access covers a set of metadata fields
atomically, and the order of body accesses and their grouping are left open, which covers every pairing of
`fd_mcache_publish` / `_sse` with `FD_MCACHE_WAIT` / `_REG` / `_SSE`. Reliable receivers return positions that are
true and never go back. Where a consumer is not flow controlled, its distance to the producer is assumed to stay
below 2^63 numbers, which is what signed sequence differences need.

## Where the code and its documentation differ

- `fd_ulong_svw_dec_sz` documents a lookup on the low nibble of the first byte, but line 863 of `fd_bits.h` performs
  the tail lookup on the high nibble. Both rules are modelled (`Svw.Rule`). The documented rule always finds the
  width; the rule as written finds it exactly when `Svw.ReadsForward` holds (`Svw.HeadSize`), and 64 is misread
  (`Svw.Misread64`). A stream reads forward right exactly when all its numbers do (`Codes.SvwStreams`). A pod is
  iterated right, from its first entry, entry by entry, to its stop, exactly when its max and all its sizes do
  (`Pods.InitAt`, `Pods.EntryInfo`, `Pods.PodListing`). For keys and values alone only one half holds, behind a
  header that reads right and at default widths (`Pods.PodContent`): an empty pod behind a misread header can be
  listed as empty by accident (`Pods.EmptyByAccident`). A reset of a pod whose max is misread writes used and cnt in
  the wrong place and can destroy it (`Pods.ResetDestroys`). Decoding from the tail is right as written.
- After a standalone `fd_tcache_remove` a copy of the tag can stay in the ring. The tag, accepted again, stays for as
  long as first-in first-out promises exactly when the ring holds no copy of it at its insertion
  (`TagRuns.InsertStays`), which a caller can check; otherwise it is lost at once (`TagRuns.InsertLost`) or too early
  (`TagRuns.InsertLostLater`). With two slots or more a run is first-in first-out at all times exactly when all its
  insertions meet that condition (`TagRuns.WindowExact`); runs without standalone removals always do
  (`TagRuns.FifoRefinement`).
- The ranges documented for `fd_fctl_cfg_done` bound `cr_resume` only by the flow control's own `cr_max`. With all
  receivers caught up an update resumes exactly when `cr_resume` is within every active receiver's `cr_max`
  (`Fctls.Fctl.ResumesWhenCaughtUp`); where it is not, a transmitter that starts without credits never sends anything
  (`FlowControl.NeverSends`, `FlowControl.CanSend`), as under the legal configuration of `FlowControl.StalledForever`.
- `fd_fctl_cfg_done` documents `cr_refill` in [cr_burst, cr_resume], the structure (`fd_fctl.h:60`) in
  [1, cr_resume]. Below `cr_burst` a transmitter can strand itself for good, with too many credits to query and too few
  to send (`FlowControl.StrandsExact`, `FlowControl.StrandedStays`); from `cr_burst` on, with `cr_resume` in reach, it
  never deadlocks (`FlowControl.CanAlwaysSend`).
- A consumer that expects a number before the first one is always told that it is behind, as documented for
  `fd_mcache_new`. By how much depends: at least depth - 1 is guaranteed exactly when the number it expects is not one
  of the depth numbers before the first one (`Link.BoundExact`), and that the number it found had been published
  exactly when it expects the first number or a later one (`Link.PublicationExact`).

## Model

| member | source | states |
|---|---|---|
| TagMap.MapStart | seahorn/include/stubs/fd_tcache.h:288 | the mask gives the tag modulo the map size |
| TagMap.MapNext | seahorn/include/stubs/fd_tcache.h:289 | the mask gives the next slot, round the end of the map |
| TagMap.Query | seahorn/include/stubs/fd_tcache.h:314-328 | the probe ends; it finds a tag iff the map has it, and otherwise stops at a free slot where storing the tag keeps the map well formed |
| TagMap.Placed | seahorn/include/stubs/fd_tcache.h:314-328 | storing an absent tag where its probe stopped keeps tags distinct and reachable |
| TagMap.Scan | seahorn/include/stubs/fd_tcache.h:361-372 | the inner loop passes only tags that may stay, and ends at a free slot or at a tag that must move, closer to a free slot |
| TagMap.HoleClosed | seahorn/include/stubs/fd_tcache.h:339-375 | once the scan meets a free slot no remaining tag's probe crosses the hole |
| TagMap.Shifted | seahorn/include/stubs/fd_tcache.h:361-372 | moving a tag into the hole keeps the tag set and moves the one unreachable spot to the tag's old slot |
| TagMap.Remove | seahorn/include/stubs/fd_tcache.h:331-375 | deletion ends with exactly the old tags without the tag, distinct and all reachable, across wrap-around |
| TagCaches.TagCache.Reset | seahorn/include/stubs/fd_tcache.h:253-266 | afterwards every ring entry and every slot is null, oldest is 0 and the cache is empty |
| TagCaches.TagCache.Find | seahorn/include/stubs/fd_tcache.h:314-328 | found iff the tag is in the cache; the index is its slot or a free one |
| TagCaches.TagCache.Insert | seahorn/include/stubs/fd_tcache.h:406-437 | dup iff the tag was in the cache; a duplicate changes nothing; otherwise the new map and ring, with a free slot at every probe on the way |
| TagCaches.TagCache.Evict | seahorn/include/stubs/fd_tcache.h:331-375 | a standalone removal takes the tag out of the map and leaves the ring |
| TagCaches.WfKept | seahorn/include/stubs/fd_tcache.h:75-86 | every operation keeps the map's tags non-null and within the ring's |
| TagCaches.LoadBound | seahorn/include/stubs/fd_tcache.h:320-325 | the map never holds more tags than depth |
| TagCaches.FreeSlot | seahorn/include/stubs/fd_tcache.h:320-325 | a map with fewer distinct tags than slots has a free slot to end every probe |
| TagRuns.LoadOverRuns | seahorn/include/stubs/fd_tcache.h:320-337 | over every mix of operations, removals included, two slots are free at rest and one in the middle of an insertion |
| TagRuns.FifoRefinement | seahorn/include/stubs/fd_tcache.h:75-86 | over every run without standalone removals the map's tags and the ring, read from its oldest entry, are the last depth accepted tags in order |
| TagRuns.DupAndEviction | seahorn/include/stubs/fd_tcache.h:406-437 | after any such run a tag is a duplicate iff it is in the window, and an insertion into a full window evicts exactly its oldest tag |
| TagRuns.InsertStays | seahorn/include/stubs/fd_tcache.h:406-437 | from any well-formed cache, whatever was removed before, an accepted tag stays through any lookups, removals of other tags and up to depth - 1 insertions iff the ring did not hold a copy of it |
| TagRuns.WindowExact | seahorn/include/stubs/fd_tcache.h:331-437 | for depth 2 or more a run is first-in first-out at all times iff all its insertions are safe in that sense |
| TagRuns.OneSlot | seahorn/include/stubs/fd_tcache.h:331-437 | with depth 1 every run is, a tag lost at once counting as removed |
| TagRuns.FifoWithRemovals | seahorn/include/stubs/fd_tcache.h:331-437 | over every run with standalone removals whose insertions are safe in that sense the ring is the window of the last depth accepted tags and the map has those of them not removed since |
| TagRuns.InsertLost | seahorn/include/stubs/fd_tcache.h:406-437 | a concrete run with a standalone removal after which an insertion is lost at once |
| TagRuns.InsertLostLater | seahorn/include/stubs/fd_tcache.h:406-437 | a concrete run in which the tag is kept at first and lost one insertion later, while among the two accepted last |
| TagRuns.InsertNeverLost | seahorn/include/stubs/fd_tcache.h:406-437 | without standalone removals an insertion is never lost |
| TagRuns.MapCntDefaultFits | seahorn/include/stubs/fd_tcache.h:123-150 | the default map size is a power of two between 2 and 4 times depth + 1, at least depth + 2, and missing exactly for 0 and from 2^62 - 1 on |
| LineIndex.LineIdxCorrect | seahorn/include/stubs/fd_mcache.h:268-295 | for both branches the index is below depth, and two numbers share a line iff they are congruent modulo depth |
| LineIndex.IdxCorrect | seahorn/include/stubs/fd_mcache.h:234-241 | the same for unbounded numbers through 64-bit wrap-around |
| LineIndex.LineIdxRotates | seahorn/include/stubs/fd_mcache.h:239-247 | the index is the number modulo depth with its low 7 bits rotated left by the interleave, within its block of 128 |
| LineIndex.LineIdxSpacing | seahorn/include/stubs/fd_mcache.h:239-243 | sequential numbers are 2^interleave lines apart, except where a multiple of 2^(7 - interleave) begins |
| Link.MCacheCfgOk | seahorn/include/stubs/fd_mcache.h:268-295 | the line index meets what the protocol needs of it |
| Link.InitInv | seahorn/include/stubs/fd_mcache.h:69-85 | a new mcache, as documented, satisfies the producer's invariant |
| Link.BeginKeeps | seahorn/include/stubs/fd_mcache.h:308-315 | marking a line as being written keeps the invariant |
| Link.WriteKeeps | seahorn/include/stubs/fd_mcache.h:316-325 | body stores, in any order and grouping, keep the invariant |
| Link.FinishKeeps | seahorn/include/stubs/fd_mcache.h:326-331 | the last store makes the line hold exactly the published fragment |
| Link.ProducerKeeps | seahorn/include/stubs/fd_mcache.h:308-358 | every step of the system keeps: each line holds the latest number published to it, or is marked as being written |
| Link.LineFacts | seahorn/include/stubs/fd_mcache.h:402-451 | what the sequence field of a line says about whether a number is unpublished, present or evicted |
| Link.ProducerProgress | seahorn/include/stubs/fd_mcache.h:308-331 | a line's number never goes back |
| Link.RxInvOwn | seahorn/include/stubs/fd_mcache.h:583-610 | a consumer's own loads and tests keep what it knows about the line |
| Link.WaitSound | seahorn/include/stubs/fd_mcache.h:583-610 | a wait that did not time out and reports no difference copied exactly what was published; one that reports a difference has it at least depth - 1, with the expected number gone and the found one published; expecting a number before the first one always gives a positive difference, of at least depth - 1 more than depth numbers before it |
| Link.RunGood | seahorn/include/stubs/fd_mcache.h:583-699 | the invariant behind it holds in every state of every run for every form of publish and wait, and whatever number the consumer expects |
| Link.RunWaitSound | seahorn/include/stubs/fd_mcache.h:453-531 | over whole runs: no torn reads, sound overrun reports, and everything processed by the documented loop is what was published; a consumer starting before the first number is always told it is behind |
| Link.PollPresent | seahorn/include/stubs/fd_mcache.h:583-610 | one poll for a number that is published, not evicted and not being evicted ends the wait with difference 0, one poll used, and exactly what was published, whichever loads the body is read by |
| Link.PollEvicted | seahorn/include/stubs/fd_mcache.h:583-610 | one poll for a number that is evicted, being evicted or before the first one ends the wait with a positive difference |
| Link.PollUnpublished | seahorn/include/stubs/fd_mcache.h:583-610 | one poll for a number not published yet uses one poll and goes on, or ends with a negative difference when it was the last |
| Link.TimesOut | seahorn/include/stubs/fd_mcache.h:583-610 | so a wait for such a number ends after exactly poll_max polls, with poll_max 0 |
| Link.EarlyReport | seahorn/include/stubs/fd_mcache.h:69-85 | from any start a consumer that expects a number before the first one can be told that it is behind, by exactly what its line shows, before anything is published |
| Link.BoundExact | seahorn/include/stubs/fd_mcache.h:402-451 | that a consumer told it is behind is so by at least depth - 1 holds in all runs iff the number it expects is not among the depth numbers before the first one |
| Link.PublicationExact | seahorn/include/stubs/fd_mcache.h:402-451 | that the number it found had been published holds in all runs iff it expects the first number or a later one |
| Link.GapIsNear | seahorn/include/stubs/fd_mcache.h:402-451 | a consumer within 2^63 - depth numbers of the producer has exact sequence differences |
| Link.QueryWindow | seahorn/include/stubs/fd_mcache.h:738-755 | a query finds q iff q is among the last depth published, something earlier iff q is unpublished, something later iff q was evicted or precedes the first number; mid-publish exactly the number being evicted is missing |
| Link.RunProducerInv | seahorn/include/stubs/fd_mcache.h:308-358 | what the producer keeps holds in every state of every run |
| Link.RunQueryWindow | seahorn/include/stubs/fd_mcache.h:738-755 | the answers of a query hold in every state of every run |
| Mcaches.PublishSteps | seahorn/include/stubs/fd_mcache.h:308-358 | the steps of one publish, run in sequence, are enabled and together publish the fragment |
| Mcaches.Mcache.Publish | seahorn/include/stubs/fd_mcache.h:308-331 | the stores in memory append a fragment to the log whose every field holds its own argument, exactly when it is in range and otherwise its remainder, and keep the window |
| Mcaches.Mcache.PublishSse | seahorn/include/stubs/fd_mcache.h:338-358 | the SSE form has the same effect, field by field |
| Mcaches.Mcache.Query | seahorn/include/stubs/fd_mcache.h:750-755 | the three answers of a query on the memory itself |
| Fctls.Credit | seahorn/include/stubs/fd_fctl.h:322-385 | a receiver's credit is in [0,cr_max] and no intermediate value overflows a signed 64-bit integer |
| Fctls.CreditExact | seahorn/include/stubs/fd_fctl.h:322-385 | it is the exact remaining credit for positions less than 2^63 apart |
| Fctls.ScanIsMinimum | seahorn/include/stubs/fd_fctl.h:310-385 | a query returns the least of cr_max and the active receivers' credits, and the lowest index attaining it, or none iff nobody limits it |
| Fctls.Fctl.RxCrReturn | seahorn/include/stubs/fd_fctl.h:300-306 | storing a position replaces exactly the credits of the receivers with that cell, for every position of the transmitter |
| FlowControl.ReturnKeeps | seahorn/include/stubs/fd_fctl.h:300-306 | returning a position keeps the composed invariant and lowers no receiver's credit; a receiver that returns the transmitter's position allows its whole cr_max again |
| Fctls.Fctl.CrQuery | seahorn/include/stubs/fd_fctl.h:322-385 | the loop computes that query over the receivers' cells |
| Fctls.UpdatedIs | seahorn/include/stubs/fd_fctl.h:522-582 | an update that queries ends refilling iff no active receiver allows less than cr_resume, then with the least credit found, and otherwise keeps the credits |
| Fctls.Fctl.TxCrUpdate | seahorn/include/stubs/fd_fctl.h:522-582 | it queries iff refilling or below cr_refill; then it is refilling afterwards iff some active receiver allows less than cr_resume, and if not it has the least of cr_max and all active credits; otherwise credits stay; below cr_refill it is always refilling afterwards; exactly one slow counter goes up by one exactly when refilling starts |
| Fctls.EnteringRefillBlamesOne | seahorn/include/stubs/fd_fctl.h:522-582 | whenever a query is too low to resume some active receiver limited it |
| Fctls.Fctl.ResumesWhenCaughtUp | seahorn/include/stubs/fd_fctl.h:435-445 | with every active receiver's cell at or past the transmitter's position one update resumes, with enough for a burst, iff cr_resume is within every active cr_max |
| FlowControl.NeverSends | seahorn/include/stubs/fd_fctl.h:435-445 | with one reliable receiver whose cr_max is below cr_resume, in every state of every run there are no credits and nothing was sent |
| FlowControl.CanSend | seahorn/include/stubs/fd_fctl.h:435-445 | from a given start some run sends a number iff cr_resume is within every reliable cr_max |
| FlowControl.StalledForever | seahorn/include/stubs/fd_fctl.h:191-236 | a concrete configuration within the documented ranges that never sends |
| FlowControl.TxKeeps | seahorn/include/stubs/fd_fctl.h:495-519 | every step keeps the transmitter's position, credits and thresholds consistent |
| FlowControl.QueryCovers | seahorn/include/stubs/fd_fctl.h:322-385 | the credit read from a receiver's cell never allows more than that receiver does |
| FlowControl.CreditKeeps | seahorn/include/stubs/fd_fctl.h:373-384 | credits stay covered although cells are read at different times and advance |
| FlowControl.RunInv | seahorn/include/stubs/fd_fctl.h:452-520 | the composed invariant holds in every state of every run |
| FlowControl.NeverOverrun | seahorn/include/stubs/fd_fctl.h:495-519 | in every interleaving no line a reliable receiver has not returned is overwritten, its waits never report a difference, and it gets every number from the first on, in full and as published |
| FlowControl.CreditsSound | seahorn/include/stubs/fd_fctl.h:373-384 | either no credits are left or using them all stays within what every active receiver allows; credits never underflow |
| FlowControl.Hysteresis | seahorn/include/stubs/fd_fctl.h:435-445 | between a step that resumes and any later query at least cr_resume - cr_refill + 1 numbers are published |
| FlowControl.QueriesExact | seahorn/include/stubs/fd_fctl.h:522-582 | in every reachable state between bursts a query is to start iff credits are below cr_refill or refilling, and one that ends resumes iff nothing it read was below cr_resume, with the least of what it read |
| FlowControl.ReadExact | seahorn/include/stubs/fd_fctl.h:322-385 | a query reads the receivers in order, each one's exact remaining credit at that moment |
| FlowControl.CanDeliver | seahorn/include/stubs/fd_mcache.h:453-531 | from every state of every run a reliable receiver can be given everything published so far, exactly as published, by its own steps alone |
| FlowControl.CanAlwaysSend | seahorn/include/stubs/fd_fctl.h:495-519 | no deadlock: with cr_resume in reach and cr_burst <= cr_refill, from every state of every run some continuation publishes another number |
| FlowControl.StrandsExact | seahorn/include/stubs/fd_fctl.h:191-236 | with cr_resume in reach, a transmitter can end up with too many credits to query and too few to send iff cr_refill is below cr_burst |
| FlowControl.StrandedStays | seahorn/include/stubs/fd_fctl.h:495-519 | and then nothing its receivers do helps it |
| FlowControl.Refines | seahorn/include/stubs/fd_fctl.h:495-519 | the composed system only makes steps of the link |
| FlowControl.UnreliableSound | seahorn/include/stubs/fd_mcache.h:453-531 | the waits and deliveries of consumers outside flow control are sound in every run, wherever they start |
| Svw.EncSzLeast | seahorn/include/stubs/fd_bits.h:792-803 | the default width is valid and is the least one that holds the number |
| Svw.FixedRoundTrip | seahorn/include/stubs/fd_bits.h:830-928 | decoding at a width inverts encoding at it, for every number the width can hold |
| Svw.AsDrawn | seahorn/include/stubs/fd_bits.h:810-842 | the bytes of an encoding are the mark, the bits of the number and the mark drawn in the comments beside the encoder |
| Svw.CapExact | seahorn/include/stubs/fd_bits.h:792-842 | a number is read back at a width, and the width found from the end, iff it is below the width's limit |
| Svw.SizeTables | seahorn/include/stubs/fd_bits.h:848-890 | both size lookups agree with the tables written beside them and give a valid width for every byte |
| Svw.LastByte | seahorn/include/stubs/fd_bits.h:872-890 | the last byte of every encoding gives its width |
| Svw.HeadSize | seahorn/include/stubs/fd_bits.h:848-866 | the documented lookup finds every width in the first byte; the one as written does iff ReadsForward holds |
| Svw.Misread64 | seahorn/include/stubs/fd_bits.h:863 | the encoding of 64 is one of those misread |
| Codes.DecTailEnc | seahorn/include/stubs/fd_bits.h:952-958 | an encoding is read from its end whatever precedes it, and the cursor stops at its start |
| Codes.DecEnc | seahorn/include/stubs/fd_bits.h:937-943 | an encoding at any width is read from its start whatever follows it, iff its size is visible: always under the documented rule, iff ReadsForward under the one as written (SvwCode) |
| Codes.DecDefault | seahorn/include/stubs/fd_bits.h:937-943 | at the default width even the number alone is right only then |
| Svw.WrongSize | seahorn/include/stubs/fd_bits.h:848-928 | nothing encoded at its default width decodes to itself with the wrong size found by the rule as written |
| Codes.BackwardStream | seahorn/include/stubs/fd_bits.h:952-958 | a stream of any numbers read from its end gives them in reverse and stops exactly at its start |
| Codes.ForwardStream | seahorn/include/stubs/fd_bits.h:937-943 | the same stream read from its start gives them in order iff all sizes are visible |
| Codes.SvwStreams | seahorn/include/stubs/fd_bits.h:792-958 | for the code's own encoding: any stream reads backward; forward it reads under the documented rule, and under the rule as written iff every number in it satisfies ReadsForward |
| Codes.StreamInjective | seahorn/include/stubs/fd_bits.h:810-821 | no two lists of numbers have the same stream |
| Svw.SvwEncFixed | seahorn/include/stubs/fd_bits.h:830-842 | exactly csz bytes in memory become the encoding |
| Svw.SvwEnc | seahorn/include/stubs/fd_bits.h:810-821 | the bytes written are the encoding at the default width, and the next position follows them |
| ZigZag.ZzEncIs | seahorn/include/stubs/fd_bits.h:420 | codes alternate between non-negative and negative numbers by magnitude |
| ZigZag.ZigZagRoundTrip | seahorn/include/stubs/fd_bits.h:420-421 | decoding inverts encoding, at every width |
| ZigZag.ZigZagOnto | seahorn/include/stubs/fd_bits.h:420-421 | encoding inverts decoding, at every width |
| ZigZag.ZigZagSmall | seahorn/include/stubs/fd_bits.h:420 | a magnitude is below 2^k iff the code is below 2^(k+1) |
| Codes.SvwLawful | seahorn/include/stubs/fd_bits.h:792-928 | under either rule the variable-width code meets the laws streams and pods are stated for, with visible sizes as in HeadSize |
| Pods.CntBound | seahorn/include/stubs/fd_pod.h:33-63 | entries take at least three bytes each, so cnt fits wherever used does |
| Pods.HeaderFields | seahorn/include/stubs/fd_pod.h:189-211 | max, used, cnt and avail read back for all cnt <= used <= max written at the width of max, its size visible |
| Pods.MaxExact | seahorn/include/stubs/fd_pod.h:189-193 | max at its default width, where fd_pod_new writes it, is found iff its size is visible |
| Pods.InitAt | seahorn/include/stubs/fd_pod.h:353-361 | wherever a pod lies, an iteration starts at its first entry, to stop after its last, iff its header is visible, and then its accessors are right |
| Pods.EntryInfo | seahorn/include/stubs/fd_pod.h:402-452 | the iterator reports an entry as laid out iff both its sizes are visible, and then moves just past it |
| Pods.Advances | seahorn/include/stubs/fd_pod.h:402-421 | on any bytes the cursor moves at least three bytes forward |
| Pods.List | seahorn/include/stubs/fd_pod.h:331-452 | on any bytes the documented loop ends, and gives what Listing says |
| Pods.PodListing | seahorn/include/stubs/fd_pod.h:331-452 | for every pod, at whatever widths: the loop starts at its first entry, reports every entry where it lies and ends with cursor = stop iff all its sizes are visible; what is reported then shows the keys and values in order |
| Pods.PodContent | seahorn/include/stubs/fd_pod.h:331-452 | behind a visible header, at default widths, even the keys and values alone are right only then |
| Pods.EmptyByAccident | seahorn/include/stubs/fd_pod.h:353-361 | behind a misread header an empty pod can be listed as empty all the same |
| Pods.NullListing | seahorn/include/stubs/fd_pod.h:353-356 | nothing is listed for NULL |
| Pods.EntryMisread | seahorn/include/stubs/fd_pod.h:430-452 | an entry at default widths with a size not visible is never reported right |
| Pods.PodInjective | seahorn/include/stubs/fd_pod.h:33-63 | no two pods have the same bytes |
| Pods.New | seahorn/include/stubs/fd_pod.h:164-176 | NULL is returned and nothing changes exactly when memory is missing or no empty pod of that size exists, which is below 3; otherwise an empty pod of size max is written |
| Pods.SmallLayout | seahorn/include/stubs/fd_pod.h:33-63 | header and entries byte by byte where all sizes fit one byte: max, used, cnt; key size, key, type, value size, value |
| Pods.Reset | seahorn/include/stubs/fd_pod.h:469-476 | used and cnt are overwritten at the width found for max, and no other byte; where that width is visible the pod becomes empty with the same max and its bytes past the header stay |
| Pods.ResetDestroys | seahorn/include/stubs/fd_pod.h:469-476 | under the lookup as written a reset of a pod with max 64, among others, overwrites part of max: no pod of that max is left |
| Pods.PutWide | seahorn/include/stubs/fd_pod.h:783-795 | a 128-bit value is written as the encoding of its low half and then that of its high half |
| Pods.WideRoundTrip | seahorn/include/stubs/fd_pod.h:934-945 | it is read back iff the sizes of both halves are visible |
| Pods.SignedWideRoundTrip | seahorn/include/stubs/fd_pod.h:796-808 | the same for a signed one, through zig-zag |
| Rolls.ModZone | seahorn/include/stubs/fd_chacha20rng.h:175-215 | in MODE_MOD zone + 1 = k*n for the largest k with k*n <= 2^64 |
| Rolls.ShiftZone | seahorn/include/stubs/fd_chacha20rng.h:175-215 | in MODE_SHIFT zone + 1 = k*n for the smallest power of two with k*n >= 2^63 |
| Rolls.DrawsInterval | seahorn/include/stubs/fd_chacha20rng.h:175-215 | the draws accepted with one result are k consecutive numbers |
| Rolls.AcceptedWith | seahorn/include/stubs/fd_chacha20rng.h:175-236 | v is accepted with result r iff r*2^64 <= v*n <= r*2^64 + zone |
| Rolls.Uniform | seahorn/include/stubs/fd_chacha20rng.h:162-237 | for each result exactly k of the 2^64 draws are accepted |
| Rolls.InRange | seahorn/include/stubs/fd_chacha20rng.h:217-236 | every result is in [0,n) |
| Rolls.AcceptedTotal | seahorn/include/stubs/fd_chacha20rng.h:172-237 | in both modes exactly k*n >= 2^63 draws are accepted, k for each result |
| Rolls.Rng.Draw | seahorn/include/stubs/fd_chacha20rng.h:154-161 | a draw is the next word of the generated stream, read from a ring buffer of any number of blocks, refilled when it is used up, and advances by 8 bytes |
| Rolls.Rng.Roll | seahorn/include/stubs/fd_chacha20rng.h:172-237 | the loop returns the scaled first accepted draw and consumes the stream exactly through it |
| Rolls.FirstAcceptedIs | seahorn/include/stubs/fd_chacha20rng.h:217-236 | that draw is accepted and all before it are rejected |
| Hashes.UintHash | seahorn/include/stubs/fd_bits.h:453-461 | the word updated step by step ends as Hash32 |
| Hashes.UintHashInverse | seahorn/include/stubs/fd_bits.h:483-491 | likewise Unhash32 |
| Hashes.UlongHash | seahorn/include/stubs/fd_bits.h:463-471 | likewise Hash64 |
| Hashes.UlongHashInverse | seahorn/include/stubs/fd_bits.h:493-501 | likewise Unhash64, whose second fold needs no third term |
| Hashes.Hash32Is | seahorn/include/stubs/fd_bits.h:453-461 | the last fold undone, the 32-bit hash is two rounds of folding and multiplying by the finalizer's constants |
| Hashes.Hash64Is | seahorn/include/stubs/fd_bits.h:463-471 | the same for the 64-bit hash |
| Hashes.Hash32Inverse | seahorn/include/stubs/fd_bits.h:473-491 | hash and inverse undo each other on all 32-bit words |
| Hashes.Hash64Inverse | seahorn/include/stubs/fd_bits.h:463-501 | hash and inverse undo each other on all 64-bit words |
| Hashes.Hash32Permutes | seahorn/include/stubs/fd_bits.h:446-461 | only 0 hashes to 0, and no two words share a hash |
| Hashes.Hash64Permutes | seahorn/include/stubs/fd_bits.h:446-471 | the same at 64 bits, so tags made by hashing are never null |
| Onces.StepKeeps | seahorn/include/stubs/fd_util_base.h:975-993 | every step of every thread keeps word, threads and counts consistent |
| Onces.OnceSafe | seahorn/include/stubs/fd_util_base.h:873-903 | in every interleaving the block is begun at most once and no thread is past it before it ended |
| Onces.FirstRuns | seahorn/include/stubs/fd_util_base.h:975-993 | a thread that comes first begins the block in three steps and has passed in five, the block begun and ended once more |
| Onces.LaterPass | seahorn/include/stubs/fd_util_base.h:975-993 | once the block has ended a thread passes in two steps without beginning it |
| Onces.OthersWait | seahorn/include/stubs/fd_util_base.h:975-993 | while it runs, or when another thread won the attempt, a thread comes round again and changes nothing |
| Onces.HolderPasses | seahorn/include/stubs/fd_util_base.h:975-993 | the thread in the block passes in at most two steps and leaves the word at 1 |
| Turnstiles.StepKeeps | seahorn/include/stubs/fd_util_base.h:1006-1032 | every step of every thread keeps the word set exactly while a thread is inside |
| Turnstiles.TurnstileSafe | seahorn/include/stubs/fd_util_base.h:917-967 | at most one thread is ever in the block, and only a non-blocking caller gets past without having been in it |
| Turnstiles.FreePasses | seahorn/include/stubs/fd_util_base.h:1006-1032 | a thread that finds the turnstile free is in the block after three steps and past it after five, the word clear again |
| Turnstiles.TakenBlocks | seahorn/include/stubs/fd_util_base.h:1006-1032 | one that finds it taken, at the first look or at the attempt, is blocked; it then comes back if blocking and goes on without having been in if not |
| Turnstiles.HolderPasses | seahorn/include/stubs/fd_util_base.h:1006-1032 | the thread in the block leaves in at most two steps and clears the word |

## Left out

- fd_mcache_seq_query and fd_mcache_seq_update: a single load and a single store of a cached position.
- The AVX forms of publish and wait, and hardware that reorders loads or stores.
- The WAIT macros are modelled as steps of the concurrent system only; there is no sequential method for them.
- ChaCha20 block generation: the bytes a key generates are given, finitely many, so a roll that would need more returns None; a refill, declared but not defined, is taken to fill the ring buffer, of any whole number of blocks, as far as the given bytes go.
- fd_mcache_new, fd_tcache_new, fd_fctl_cfg_done, fd_pod_alloc, fd_pod_query, fd_pod_resize, fd_pod_compact and the fd_seq functions are declared elsewhere and not part of this model; documented results are used as initial states and preconditions, and the fd_seq functions are taken as wrapping 64-bit arithmetic.
- Slow counters in the composed system: they are diagnostic and are covered by Fctls.Fctl.TxCrUpdate only.
- First-in first-out exactness for insertions that are not safe: false, see TagRuns.InsertStays.
- Pods.PodContent: says nothing of keys and values listed behind a misread header or at wider than default widths, where they can be right by accident; the exact condition for the iteration as a whole is that of Pods.PodListing.
- Pods.Reset: the bytes it overwrites must lie in the memory given; where a misread width takes them beyond it the source writes out of bounds, which is not modelled.
- Link.PublicationExact: numbers 2^63 or more before the first one are excluded, as their signed differences wrap.
- Pods.List: pointers are offsets into one block of bytes, so pointer wrap-around is not modelled; a read outside the block is modelled as no answer.
- Nested ONCE blocks, THREAD_ONCE, and the single-threaded branch of the macros.
- Pod values of narrower types, strings, floats, sub-pods and paths: they use the same integer code and layout.
- Joins, leaves, alignment, footprints, compiler fences and branch hints.
- Fairness: progress is stated as what a thread, a poll or a continuation does or can do, not as what a scheduler must let happen.
