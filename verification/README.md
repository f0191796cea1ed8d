# AABox: a model of the projection daemon and the APK resigner

A Dafny model of the parts of AABox where correctness is a matter of protocol, layout or
program transformation rather than of one function:

- **Video splitting.** `Nal.dfy` is the Annex-B splitter (section B.1 of ITU-T H.264) on a whole
  buffer; `VideoSource.dfy` is the same splitting done read by read, with the leftover that is
  carried over. The central result says the two agree for every way of cutting the stream.
- **DEX patching.** `DexInsns.dfy` rewrites static-field reads in an instruction array in place,
  `DexMeaning.dfy` gives code a step semantics and shows that the rewrite keeps it,
  `DexChecksum.dfy` has the two nested header checksums, `Uleb128.dfy`, `DexWalk.dfy` and
  `DexClassData.dfy` reach the method bodies, `DexPatch.dfy` resolves the field and ties the
  patcher together. `DexItems.dfy` writes instruction arrays and payload tables out from their parts,
  `DexTables.dfy` the header and tables; `DexRanges.dfy` follows the code ranges through a file and
  `DexFile.dfy` states the result for a whole file written out from its parts.
- **APK signing.** `SigningBlock.dfy` and `ApkSigner.dfy` write the APK Signature Scheme v2 layout
  next to a verifier of that scheme; `Base64.dfy` is the PEM body decoder.
- **Video pipeline.** `Pipeline.dfy` is a transition system of one handle and any number of
  streamer tasks, each step of which is one atomic access, with its invariant and the shared state as
  a class; `PipelineRuns.dfy` says exactly when flow control holds, with runs where it does not.
- **The wire.** `Framing.dfy` (frame codec), `ReadFrame.dfy` (the second parser of the same
  format), `SendLoop.dfy` (encryption in lockstep, fragmentation, several queues on one wire,
  reassembly), `InboundTurns.dfy` (the reader as a future that outbound branches may drop).
- **Navigation.** `Osrm.dfy` is the route-following state machine.

`Bytes.dfy` holds integers, byte orders and byte-string lemmas.

Code that changes state step by step is a method or a class whose contract equates its result
with a function; the lemmas are about that function. SHA-1, SHA-256, the RSA signature, TLS,
distance on the globe and the outcome of network requests are parameters.

## Where the code differs from its documentation or from what one would expect

The model follows the code in each case.

- Neither the cap nor the return of slots holds in every run. `Account` is the exact balance behind
  both: unacked frames are the counter, plus what acks of other generations and a starting handle took
  off it, minus acks that found it at zero, the value it had when the generation began, and increments
  by cancelled streamers.
- The cap fails because `start` resets the counter before it bumps the generation
  (crates/aabox-aapd/src/channels/video/pipeline.rs:150-161; `WindowOvershoot`) and because acks carry
  no generation (`StaleAcksOvershoot`). `CapExact` says from which states a streamer left to itself
  keeps it; it holds throughout every run in which no ack of another generation lowers the counter and
  no start meets a streamer still at work (`OrderlyKeepsCap`).
- An ack that overtakes its increment is lost, also when the increment is that of a cancelled
  streamer. For every cap there is a run after which all frames are acked and the stream waits
  (`EarlyAcksStall`, `StallHolds`); `StallExact` gives the condition. Where every start waits for earlier
  streamers to go, at most one slot is lost, so only a cap of one stalls (`PatientLosesOneSlot`).
- An outbound branch of the control loop that completes while `read_frame` is between two reads drops
  the bytes read so far (crates/aabox-aapd/src/control_channel.rs:412-463): `FrameSurvives` says when that
  is harmless, `LosingRun` shows a frame lost.
- `read_frame` drops bytes that its first read delivers beyond the frame
  (crates/aabox-aapd/src/control.rs:213-239); `RemainderKept` gives the exact condition under which none
  are dropped.
- The header comment of crates/aabox-aapd/src/framing.rs:10-21 says that the total length is the sum of
  the fragment payload lengths and that video uses a 32-bit payload length. The code writes the length
  of the plaintext (crates/aabox-aapd/src/control_channel.rs:176-199) and 16-bit payload lengths
  throughout.
- crates/aabox-aapd/src/channels/video/nal.rs:89-94 promises one access unit per displayed picture; the
  code closes a unit at every slice.
- crates/aabox-resigner/src/dex.rs:389-393 says that only opcode 0x60 is patched and then that all of
  0x60..0x66 are; the code does the latter, and `OtherFormsChangeMeaning` shows why `MeaningPreserved`
  asks that only 0x60 reads the field.
- crates/aabox-aapd/src/nav/osrm.rs:44-45 describes leaving the route as being far from any point of the
  current step; the code takes the nearest manoeuvre of the whole route. The comment on a failed
  recalculation (line 583) says that no new instruction is given; the code refreshes and returns the
  current one.

## Model

| member | source | states |
|---|---|---|
| Nal.StartCodeOffsets | crates/aabox-aapd/src/channels/video/nal.rs:20-39 | the forward scan lists exactly the positions where a start code begins, in order, each with its prefix length 3 or 4 |
| Nal.FindLastStartCode | crates/aabox-aapd/src/channels/video/source.rs:305-319 | the backward scan returns the last start code of the same notion, `None` if there is none |
| Nal.ScannersAgree | crates/aabox-aapd/src/channels/video/source.rs:305-319 | the last entry of the forward list is what the backward scan finds, and a position is listed if and only if a start code begins there |
| Nal.CodesAreAnnexB | crates/aabox-aapd/src/channels/video/nal.rs:17-39 | in bytes: wherever 00 00 01 stands exactly one start code is listed, of length 4 with a zero byte in front and 3 otherwise, and no other start code is listed |
| Nal.CodesBelowSorted | crates/aabox-aapd/src/channels/video/nal.rs:20-39 | the listed positions strictly increase |
| Nal.CodesDoNotOverlap | crates/aabox-aapd/src/channels/video/nal.rs:25-34 | two start codes never share a byte |
| Nal.SplitAt | crates/aabox-aapd/src/channels/video/nal.rs:44-53 | splitting is compositional: cut at any start code, the NAL units of the two parts are the NAL units of the whole |
| Nal.SplitNals | crates/aabox-aapd/src/channels/video/nal.rs:44-53 | the loop over the offset list yields those NAL units |
| Nal.NalsBytes | crates/aabox-aapd/src/channels/video/nal.rs:41-53 | the NAL units concatenate to the buffer from its first start code on |
| Nal.NalUnitType | crates/aabox-aapd/src/channels/video/nal.rs:57-70 | the search loop, against `NalType` |
| Nal.NalTypeIsHeader | crates/aabox-aapd/src/channels/video/nal.rs:55-70 | on a NAL unit the type is the low five bits of the byte right behind its own start code, 0 when there is none (section 7.4.1 of ITU-T H.264) |
| Nal.GroupAccessUnits | crates/aabox-aapd/src/channels/video/nal.rs:95-115 | the loop with its flushed `current`, against the recursive grouping |
| Nal.GroupedShape | crates/aabox-aapd/src/channels/video/nal.rs:89-115 | every flushed unit is a run of non-slice NALs closed by exactly one slice; what is pending is a slice-free suffix of the buffer that begins at a start code |
| Nal.UnitsByHeader | crates/aabox-aapd/src/channels/video/nal.rs:72-115 | in header bytes: the NAL units of the buffer, in order, are cut behind every one whose type is 1 or 5 and nowhere else; what is pending has none of them |
| Nal.AccessUnitsByHeader | crates/aabox-aapd/src/channels/video/nal.rs:95-115 | the same for the list the batch form returns, pending NALs being its last unit |
| Nal.IdrByHeader | crates/aabox-aapd/src/channels/video/source.rs:155-159 | a key frame is a unit with a NAL whose header byte says type 5 |
| Nal.SliceUnitsAreFlushed | crates/aabox-aapd/src/channels/video/nal.rs:98-113 | the slice-containing units are exactly the flushed ones |
| Nal.GroupedRestart | crates/aabox-aapd/src/channels/video/nal.rs:95-115 | where nothing is pending, grouping may restart: units of the whole are units of the front followed by units of the rest |
| Nal.AccessUnitsKeepBytes | crates/aabox-aapd/src/channels/video/nal.rs:95-115 | the units concatenate to the buffer from its first start code on: no byte lost, duplicated or moved |
| Nal.AuHasSlice | crates/aabox-aapd/src/channels/video/source.rs:164-168 | true exactly when some NAL unit of the access unit is a slice |
| Nal.AuHasIdr | crates/aabox-aapd/src/channels/video/source.rs:155-159 | true exactly when some NAL unit has type 5 |
| VideoSource.Drain | crates/aabox-aapd/src/channels/video/source.rs:254-286 | one round of cutting at the last start code, grouping, and pushing a slice-less last unit back in front of the leftover |
| VideoSource.StepMatchesBatch | crates/aabox-aapd/src/channels/video/source.rs:253-287 | one read: the units queued are exactly those the batch grouping gains on the longer stream, and the leftover is exactly the rest of the stream |
| VideoSource.StreamingEqualsBatch | crates/aabox-aapd/src/channels/video/source.rs:225-292 | for every way of cutting a stream into reads, all units and the leftover are those of the batch grouping of the stream in front of its last start code |
| VideoSource.StreamKeepsBytes | crates/aabox-aapd/src/channels/video/source.rs:225-292 | complete units followed by the leftover are the stream from its first start code on |
| VideoSource.UnitsEndInTheirSlice | crates/aabox-aapd/src/channels/video/source.rs:258-281 | parameter sets travel with the next slice: every unit is non-slice NALs closed by one slice |
| VideoSource.CompleteUnitsByHeader | crates/aabox-aapd/src/channels/video/source.rs:225-292 | in header bytes: every unit handed out holds exactly one NAL of type 1 or 5, its last, and none waits in front of the last start code |
| VideoSource.NothingPendingAtCut | crates/aabox-aapd/src/channels/video/source.rs:258-281 | up to the cut between units and leftover the batch grouping has nothing pending |
| VideoSource.ScreenRecordVideoSource.Receive | crates/aabox-aapd/src/channels/video/source.rs:253-289 | the stateful form keeps the invariant that units handed out and queued are the complete units of all bytes received |
| VideoSource.ScreenRecordVideoSource.NextFrame | crates/aabox-aapd/src/channels/video/source.rs:225-292 | hands out the next complete unit with its presentation time and key-frame flag, reading on while none is queued; ends only when closed, out of reads, or on a read made now that is end of file, an error or empty |
| VideoSource.ScreenRecordVideoSource.PopFront | crates/aabox-aapd/src/channels/video/source.rs:229-234 | the k-th unit gets k intervals, saturating at the 64-bit maximum |
| VideoSource.TestPatternVideoSource.NextFrame | crates/aabox-aapd/src/channels/video/source.rs:124-152 | cycles through the access units of the embedded stream; presentation times grow across passes |
| DexInsns.RewriteSgetInInsns | crates/aabox-resigner/src/dex.rs:313-413 | the in-place loop equals the rewrite of the instruction array and touches no byte outside it; the patch count grows by the number of matching instructions in the original decode |
| DexInsns.RewriteExact | crates/aabox-resigner/src/dex.rs:313-413 | same walked offsets before and after; each match becomes `const/16` of the same register with literal 35; every other byte, payload bytes included, is unchanged; a second pass does nothing |
| DexInsns.SameWalk | crates/aabox-resigner/src/dex.rs:318-412 | patching while walking does not disturb the walk and leaves no match |
| DexInsns.SlotsAreMatches | crates/aabox-resigner/src/dex.rs:394-396 | the patched offsets are exactly the walked instructions that match |
| DexInsns.RewriteInside | crates/aabox-resigner/src/dex.rs:397-408 | what a matching instruction becomes |
| DexInsns.RewriteOutside | crates/aabox-resigner/src/dex.rs:327-371 | bytes outside matching instructions keep their value |
| DexInsns.StepUnits | crates/aabox-resigner/src/dex.rs:321-382 | length of an instruction or payload table, and where the walk stops |
| DexItems.ItemUnits | crates/aabox-resigner/src/dex.rs:327-382 | an instruction or payload table written out from its parts is stepped over by the length of its bytes |
| DexItems.ItemsWalk | crates/aabox-resigner/src/dex.rs:318-412 | for any list of instructions and payload tables the walk over their bytes visits exactly their offsets, and the slots are exactly the static gets of the field |
| DexItems.RewriteItems | crates/aabox-resigner/src/dex.rs:313-413 | the rewrite turns each static get of the field into `const/16` of its register with literal 35 and leaves every other item as it stands |
| DexItems.SlotsAreGets | crates/aabox-resigner/src/dex.rs:327-371 | every slot is the four bytes of a static get; no byte of a payload table is in one |
| DexInsns.TableIsFormats | crates/aabox-resigner/src/dex.rs:492-528 | each of the 256 table entries is the length of the instruction format of its opcode, 0 for an unused one |
| DexInsns.WideTargetNeverMatches | crates/aabox-resigner/src/dex.rs:395-396 | a field index beyond 16 bits patches nothing |
| DexMeaning.MeaningPreserved | crates/aabox-resigner/src/dex.rs:386-409 | every run of the original that stays on walked instructions, with the field reading 35, is matched step for step by the patched code |
| DexMeaning.ClosedCodeMeaningPreserved | crates/aabox-resigner/src/dex.rs:386-409 | for code whose control flow and payload references stay on walked instructions this holds for runs of any length from any instruction |
| DexMeaning.OtherFormsChangeMeaning | crates/aabox-resigner/src/dex.rs:389-394 | the condition is needed: where a matching instruction is another `sget` form, a semantics tells the two codes apart |
| DexChecksum.ComputeAdler32 | crates/aabox-resigner/src/dex.rs:434-443 | the running sums are the closed form of section 2.2 of RFC 1950; both stay below 65521, so no 32-bit addition overflows |
| DexChecksum.KnownValue | crates/aabox-resigner/src/dex.rs:434-443 | the published value for the text Wikipedia |
| DexChecksum.SealedIsConsistent | crates/aabox-resigner/src/dex.rs:417-432 | both nested checksums hold at once and nothing outside bytes 8..32 changes |
| DexChecksum.RecomputeHeaderChecksums | crates/aabox-resigner/src/dex.rs:417-432 | the two in-place writes, in the order that makes them consistent |
| Uleb128.ReadUleb128 | crates/aabox-resigner/src/dex.rs:467-484 | the shift loop, with errors on truncation and on more than five bytes |
| Uleb128.PushUleb128 | crates/aabox-resigner/tests/common/mod.rs:156-166 | the encoder loop |
| Uleb128.RoundTrip | crates/aabox-resigner/src/dex.rs:467-484 | reading what was pushed returns the next offset and the value, for every 32-bit value at any place |
| DexWalk.WalkOneClassData | crates/aabox-resigner/src/dex.rs:250-309 | the walk over one class_data item on a file it rewrites as it goes; a failure keeps what was rewritten |
| DexWalk.WalkCodeItems | crates/aabox-resigner/src/dex.rs:204-248 | the walk over all class definitions; an unreadable class is skipped |
| DexWalk.ClassesSplit | crates/aabox-resigner/src/dex.rs:215-246 | whatever some classes hold, readable or not, the later ones are walked as well |
| DexWalk.ClassesFramed | crates/aabox-resigner/src/dex.rs:204-309 | only 4-byte slots change, each inside a visited instruction range, whatever the file |
| DexClassData.MethodsWalkExact | crates/aabox-resigner/src/dex.rs:281-307 | for any encoded methods, the rewriter is called once per method with nonzero code_off, in order, on exactly its instruction range |
| DexClassData.ClassDataWalkExact | crates/aabox-resigner/src/dex.rs:250-309 | the same for a whole class_data item with any field and method lists |
| DexClassData.BodiesRewritten | crates/aabox-resigner/src/dex.rs:281-307 | when bodies are shared whole or not at all, each ends up as its own rewrite however often it is visited |
| DexPatch.Find | crates/aabox-resigner/src/dex.rs:140-200 | the shape of the three table searches: first hit, error on an unreadable entry |
| DexPatch.ResolveSound | crates/aabox-resigner/src/dex.rs:48-73 | an index that the string, type and field searches return denotes `int Build.VERSION.SDK_INT` |
| DexPatch.ResolveExact | crates/aabox-resigner/src/dex.rs:48-73 | on readable tables without duplicates an index is found exactly when some field denotes it |
| DexTables.HeaderParses | crates/aabox-resigner/src/dex.rs:110-136 | every header field is read from where the format puts it |
| DexTables.FieldIs | crates/aabox-resigner/src/dex.rs:184-196 | a field table written out from class, type and name indices reads back entry by entry |
| DexTables.StringIsText | crates/aabox-resigner/src/dex.rs:140-162 | the search accepts a string exactly when its bytes are the text |
| DexTables.ResolveOnTables | crates/aabox-resigner/src/dex.rs:48-73 | on tables written out from their parts, without duplicates, the resolution finds a field exactly when one has that class, name and type, and then such a field |
| DexPatch.ResolveField | crates/aabox-resigner/src/dex.rs:52-73 | the chain of searches with its early ends |
| DexPatch.PatchDex | crates/aabox-resigner/src/dex.rs:48-94 | the whole patcher in place; on an error the file is untouched |
| DexPatch.PatchedReport | crates/aabox-resigner/src/dex.rs:35-94 | four bytes are rewritten for each patch; without patches the file is unchanged |
| DexPatch.PatchedFrame | crates/aabox-resigner/src/dex.rs:48-94 | with patches, which number as the slots of the walk, the output differs only in bytes 8..32 and in those slots, each inside a visited range |
| DexPatch.PatchedIsSealed | crates/aabox-resigner/src/dex.rs:48-94 | with patches the field resolved is `Build.VERSION.SDK_INT` and both checksums hold |
| DexRanges.ClassesWalkExact | crates/aabox-resigner/src/dex.rs:204-309 | on a file whose class table describes any list of classes, code ranges apart from what the walk reads, the walk visits the ranges of all methods, in order, and rewrites exactly them |
| DexFile.CodeRangeIs | crates/aabox-resigner/src/dex.rs:291-305 | the slice of a code item handed to the rewriter is exactly its instructions |
| DexFile.ClassesWalkExact | crates/aabox-resigner/src/dex.rs:204-309 | on a file written out from class definitions, class data and code items, the walk visits exactly the instructions of all methods with code, in order, and only rewrites them |
| DexFile.PatchedBodies | crates/aabox-resigner/src/dex.rs:48-94 | in the patched file the instructions of every method are the rewrite of the original ones |
| DexFile.PatchedInstructions | crates/aabox-resigner/src/dex.rs:48-94 | instruction by instruction: static gets of the field become the constant, all else stays |
| DexFile.EveryBodyRunsClamped | crates/aabox-resigner/src/dex.rs:48-94 | from file to behaviour: each such body runs, for any number of steps, as the original instructions do where SDK_INT reads 35 |
| DexFile.PatchedFile | crates/aabox-resigner/src/dex.rs:48-94 | a whole file written out from header, tables, classes and code: left alone if no field is `int Build.VERSION.SDK_INT`, and otherwise every method comes out with the reads of such a field turned into 35 |
| Base64.Base64Decode | crates/aabox-resigner/src/sign.rs:148-175 | the decoder loop over a 32-bit accumulator |
| Base64.DecodeInvertsEncode | crates/aabox-resigner/src/sign.rs:146-175 | any encoding (section 4 of RFC 4648) with whitespace inserted anywhere decodes to the encoded bytes; bits shifted out of the accumulator never matter |
| Base64.FailsOnBadCharacter | crates/aabox-resigner/src/sign.rs:148-175 | decoding fails exactly when a character outside the alphabet comes before any `=` |
| Base64.LinesDecode | crates/aabox-resigner/src/sign.rs:122-175 | an encoding cut into lines anywhere, with LF or CR LF behind each, decodes |
| SigningBlock.EncodeLpElements | crates/aabox-resigner/src/sign.rs:283-291 | the loop over length-prefixed elements |
| SigningBlock.LpRoundTrip | crates/aabox-resigner/src/sign.rs:283-291 | reading length-prefixed elements back |
| SigningBlock.EncodeLpIntLpBytesPairs | crates/aabox-resigner/src/sign.rs:296-307 | the loop over id and bytes pairs |
| SigningBlock.PairsAreElements | crates/aabox-resigner/src/sign.rs:293-307 | a pair sequence is a length-prefixed sequence of pair elements |
| SigningBlock.PairElementRoundTrip | crates/aabox-resigner/src/sign.rs:293-307 | reading a pair element back |
| SigningBlock.BuildSigningBlock | crates/aabox-resigner/src/sign.rs:381-422 | the block as it is built, padding included |
| SigningBlock.BlockLayout | crates/aabox-resigner/src/sign.rs:376-422 | a whole number of pages; both size fields equal the length minus 8; the pairs read back are the given ones followed by at most one verity-padding pair of at least 12 bytes |
| SigningBlock.BlockIsLocated | crates/aabox-resigner/src/sign.rs:381-422 | walking back from the central directory finds the block and its pairs |
| ApkSigner.LocateZipLayout | crates/aabox-resigner/src/sign.rs:189-223 | the reverse scan finds the last consistent end-of-central-directory record within comment range, or there is none |
| ApkSigner.ZipIsLocated | crates/aabox-resigner/src/sign.rs:189-223 | on a file written out from front, central directory and end record, the scan finds the record, with offset and size of the directory |
| ApkSigner.ComputeChunkedSha256 | crates/aabox-resigner/src/sign.rs:236-273 | each region is cut into 1 MiB chunks on its own and digested with the chunk count |
| ApkSigner.ChunksCover | crates/aabox-resigner/src/sign.rs:257-269 | the chunks of a region concatenate to it |
| ApkSigner.DigestIsExpected | crates/aabox-resigner/src/sign.rs:236-273 | the digest equals the one a verifier computes chunk by chunk by index, behind its own prefix bytes and count |
| ApkSigner.BuildV2BlockBody | crates/aabox-resigner/src/sign.rs:331-374 | the nested v2 block |
| ApkSigner.SignedDataParts | crates/aabox-resigner/src/sign.rs:345-352 | the signed data holds digests, certificates and two empty elements |
| ApkSigner.SignApkV2 | crates/aabox-resigner/src/sign.rs:426-491 | errors exactly when no record is found or the central directory passes it; otherwise the four sections in order |
| ApkSigner.SignedZip | crates/aabox-resigner/src/sign.rs:426-491 | on a file written out from its parts, the signed file is the front padded with zero bytes to a page, the block, the same central directory and the same record but for its offset |
| ApkSigner.SignedIsVerified | crates/aabox-resigner/src/sign.rs:426-491 | for every ZIP in order, with or without a comment, a v2 verifier at the file's record walks back to the block, recovers the signed digest and recomputes it, and the central directory is page aligned; a scan finds that record if and only if overwriting its offset made no later one |
| ApkSigner.LastRecord | crates/aabox-resigner/src/sign.rs:482-488 | a later record can only arise where its magic overlaps the overwritten field |
| ApkSigner.CommentFree | crates/aabox-resigner/src/sign.rs:482-488 | without a comment none arises |
| ApkSigner.OffsetsDiffer | crates/aabox-resigner/src/sign.rs:460-487 | the offset on disk and the digested one differ |
| ApkSigner.ContentDigestBinds | crates/aabox-resigner/src/sign.rs:236-273 | two different contents with the same digest yield a collision of the hash |
| Pipeline.StepKeepsInv | crates/aabox-aapd/src/channels/video/pipeline.rs:147-323 | every atomic step of handle, streamers and acks keeps the invariant behind the next rows |
| Pipeline.Account | crates/aabox-aapd/src/channels/video/pipeline.rs:235-246 | in every run the unacked frames of a live current streamer equal the counter and its pending increment, plus what was taken off elsewhere, minus lost acks, the starting value and late increments |
| Pipeline.FlowControl | crates/aabox-aapd/src/channels/video/pipeline.rs:235-246 | in every run, frames pushed minus frames acked in the current generation never exceed the cap plus the acks of other generations that lowered the counter, except in the window of the next start, where the count it discarded adds |
| Pipeline.Cancellation | crates/aabox-aapd/src/channels/video/pipeline.rs:257-323 | in every run generations of streamers are distinct, a cancelled one pushes and increments at most once more, and the counter is at most the cap plus the late increments since the last reset |
| Pipeline.AtMostOneMoreFrame | crates/aabox-aapd/src/channels/video/pipeline.rs:268-320 | the same counted on the events: from any state on, a cancelled streamer has at most one push and one increment left |
| Pipeline.StopCancels | crates/aabox-aapd/src/channels/video/pipeline.rs:226-233 | after the send of a stop no live streamer is current, although the send does nothing without receivers |
| PipelineRuns.CapExact | crates/aabox-aapd/src/channels/video/pipeline.rs:266-321 | in every reachable state, every continuation of a live current streamer alone keeps the cap if and only if the peak its counter can reach, with what was taken off elsewhere, is at most the cap with lost acks, starting value and late increments |
| PipelineRuns.CapExactAtTurn | crates/aabox-aapd/src/channels/video/pipeline.rs:266-321 | at the start of a turn within the cap this is the bare balance of what was taken off and what was not |
| PipelineRuns.OrderlyKeepsCap | crates/aabox-aapd/src/channels/video/pipeline.rs:147-161 | the cap holds throughout every run in which no ack of another generation lowers the counter and no start meets a live current streamer |
| PipelineRuns.WindowOvershoot | crates/aabox-aapd/src/channels/video/pipeline.rs:150-161 | for every cap, a run that reaches twice the cap because the counter is reset before the generation is bumped |
| PipelineRuns.StaleAcksOvershoot | crates/aabox-aapd/src/channels/video/pipeline.rs:235-246 | for every cap, a run with one ack per frame sent that reaches twice the cap because acks carry no generation |
| PipelineRuns.StallExact | crates/aabox-aapd/src/channels/video/pipeline.rs:275-290 | in every run, once all frames of the current generation are acked, its live streamer is at the cap if and only if lost acks, starting value and late increments outweigh what was taken off elsewhere by the cap and the pending increment |
| PipelineRuns.EarlyAcksStall | crates/aabox-aapd/src/channels/video/pipeline.rs:237-246 | for every cap, a run after which every frame of every generation is acked, no ack was excessive, and the current streamer waits at the cap |
| PipelineRuns.StallHolds | crates/aabox-aapd/src/channels/video/pipeline.rs:280-290 | whatever other streamers there are, only an ack, a start or a stop ends such a wait |
| PipelineRuns.SlotsComeBack | crates/aabox-aapd/src/channels/video/pipeline.rs:235-246 | in every run the counter exceeds the unacked frames by at most one, next to the starting value, late increments and excess acks |
| PipelineRuns.PatientLosesOneSlot | crates/aabox-aapd/src/channels/video/pipeline.rs:147-161 | where every start waits for earlier streamers to go and no ack is excessive, the counter exceeds the unacked frames by at most one |
| Pipeline.VideoPipeline.Start | crates/aabox-aapd/src/channels/video/pipeline.rs:147-213 | reset, subscribe, bump, spawn on the shared fields |
| Pipeline.VideoPipeline.Stop | crates/aabox-aapd/src/channels/video/pipeline.rs:228-233 | bump if anybody listens, then reset; every live streamer is cancelled |
| Pipeline.VideoPipeline.OnMediaAck | crates/aabox-aapd/src/channels/video/pipeline.rs:236-246 | the saturating decrement |
| Pipeline.VideoPipeline.StreamerStep | crates/aabox-aapd/src/channels/video/pipeline.rs:266-322 | the streamer loop, one atomic step per call: where each place leads, what a frame, an open queue and the watch decide, and nothing else changes |
| PipelineRuns.Progress | crates/aabox-aapd/src/channels/video/pipeline.rs:266-321 | while the generation lasts, a live current streamer that finds room, frames and an open queue pushes within five steps of its own, whatever the others do |
| PipelineRuns.ProgressAlone | crates/aabox-aapd/src/channels/video/pipeline.rs:266-321 | below the cap and left to itself it finds room |
| Framing.EncodeInto | crates/aabox-aapd/src/framing.rs:75-86 | appends flags, length, optional total length and payload to the buffer |
| Framing.ParseFrame | crates/aabox-aapd/src/framing.rs:98-133 | consumes one frame from the buffer, or nothing |
| Framing.FlagBits | crates/aabox-aapd/src/framing.rs:42-59 | type, control and encryption are one bit each of the flag byte |
| Framing.WireLayout | crates/aabox-aapd/src/framing.rs:75-86 | channel, flags, big-endian length, total length on First, payload, byte by byte |
| Framing.RoundTrip | crates/aabox-aapd/src/framing.rs:75-133 | parsing an encoding returns the frame and the remainder if and only if the payload is below 64 KiB and a total length is present exactly on First |
| Framing.ParsedBytes | crates/aabox-aapd/src/framing.rs:98-133 | re-encoding what was parsed gives the bytes back if and only if the four unused flag bits are zero |
| Framing.PrefixIsIncomplete | crates/aabox-aapd/src/framing.rs:98-117 | no strict prefix of an encoding parses |
| Framing.ParseExtends | crates/aabox-aapd/src/framing.rs:98-133 | bytes that arrive later do not change a frame already complete |
| Framing.ChunksDoNotMatter | crates/aabox-aapd/src/framing.rs:94-133 | for any bytes at all, incremental parsing depends only on their concatenation |
| Framing.AnyChunking | crates/aabox-aapd/src/framing.rs:94-133 | well-formed frames followed by a part of one more come out whole and in order however the bytes are cut; the part stays buffered |
| ReadFrame.Stream.ReadFrame | crates/aabox-aapd/src/control.rs:147-246 | the one-frame reader: one read of up to 4096 bytes, then exactly the missing payload |
| ReadFrame.ReaderAgrees | crates/aabox-aapd/src/control.rs:162-246 | it returns a frame exactly when its first read covers the header and the whole frame arrives; it is the frame the parser finds, however the bytes are cut |
| ReadFrame.RemainderKept | crates/aabox-aapd/src/control.rs:213-239 | it leaves the parser's remainder exactly when its first read does not pass the end of the frame |
| ReadFrame.OvershootLosesAFrame | crates/aabox-aapd/src/control.rs:213-239 | two frames that arrive in one read: the second is lost |
| ReadFrame.AlignedStream | crates/aabox-aapd/src/control.rs:147-246 | if no read straddles two frames, any number of frames is read back in order |
| SendLoop.Connection.SendEncrypted | crates/aabox-aapd/src/control_channel.rs:156-206 | the fragmenting loop on a stateful connection and wire, stopping where encryption fails |
| SendLoop.SentGroup | crates/aabox-aapd/src/control_channel.rs:107-206 | a finished send is one Bulk frame, or First Middle* Last with the plaintext length as total; the control flag is set exactly on Bulk frames of message 7 or 8 on a channel other than 0 |
| SendLoop.SentFrames | crates/aabox-aapd/src/control_channel.rs:130-141 | every frame fits the wire and no fragment carries more than 0x1F00 bytes of plaintext |
| SendLoop.WireIsWholeMessages | crates/aabox-aapd/src/control_channel.rs:405-463 | for any interleaving, with encryption that works, the whole wire is one Bulk frame or First Middle* Last group per message sent, in the order sent |
| SendLoop.FragmentAt | crates/aabox-aapd/src/control_channel.rs:176-203 | which bytes the i-th fragment carries, under which record number |
| SendLoop.PlainLayout | crates/aabox-aapd/src/control_channel.rs:165-168 | the plaintext is the message id, most significant byte first, and the payload |
| SendLoop.BatchStopsAtFailure | crates/aabox-aapd/src/control_channel.rs:440-445 | a batch is sent up to the first message that fails, whose finished fragments stay on the wire; nothing behind it is attempted |
| SendLoop.Receiver.NextMessage | crates/aabox-aapd/tests/video_pipeline.rs:62-100 | the reassembler with its single accumulator |
| SendLoop.SendSurvives | crates/aabox-aapd/src/control_channel.rs:156-206 | one send, whatever the receiver was in the middle of: its message if it finished, else nothing |
| SendLoop.WireCarriesLog | crates/aabox-aapd/src/control_channel.rs:412-463 | for any arrivals and any order of branches the reassembler returns exactly the messages whose send finished, in the order sent |
| SendLoop.QueueOrderKept | crates/aabox-aapd/src/control_channel.rs:412-463 | per queue, messages sent and still waiting are together those that arrived, in order |
| SendLoop.BytesCarryLog | crates/aabox-aapd/src/control_channel.rs:156-206 | the same from the bytes of the wire, cut in any way, through incremental parsing |
| SendLoop.AlignedReadsCarryLog | crates/aabox-aapd/src/control.rs:147-246 | the same through the one-frame reader |
| SendLoop.ControlLoop.TakeTurn | crates/aabox-aapd/src/control_channel.rs:426-462 | one outbound branch of the select loop, or the replies to an inbound frame |
| InboundTurns.FrameSurvives | crates/aabox-aapd/src/control_channel.rs:412-463 | a frame that takes n reads comes out of n polls; an outbound branch after j of them changes nothing if and only if j is 0 or n, and otherwise leaves no frame |
| InboundTurns.LosingRun | crates/aabox-aapd/src/control_channel.rs:412-463 | header and payload in two reads with an outbound branch in between: the payload is left to be read as a header |
| InboundTurns.UndisturbedFrames | crates/aabox-aapd/src/control_channel.rs:412-463 | frames in pieces of their own are all received, in order, by a loop whose outbound branches complete only between frames |
| Osrm.RunKeepsValid | crates/aabox-aapd/src/nav/osrm.rs:361-376 | in every run of destinations, fixes and fetch outcomes the pointer is a step of the route (0 when it is empty), and the cached instruction is that step at its distance from the last fix |
| Osrm.FixOnRoute | crates/aabox-aapd/src/nav/osrm.rs:545-587 | a fix replaces the route exactly when it is off-route and the fetch succeeds; otherwise the pointer moves by one exactly when near a step that is not the last; a failed recalculation moves nothing |
| Osrm.PointerOnOneRoute | crates/aabox-aapd/src/nav/osrm.rs:548-559 | along fixes on one route the pointer never falls, rises at most once per fix and rests on the last step |
| Osrm.DrivenThrough | crates/aabox-aapd/src/nav/osrm.rs:548-559 | a drive past the manoeuvres in turn advances at each |
| Osrm.NearIsNotFar | crates/aabox-aapd/src/nav/osrm.rs:555-568 | advancing and recalculating exclude each other |
| Osrm.EmptyRouteStays | crates/aabox-aapd/src/nav/osrm.rs:564-568 | a route without steps is never replaced by fixes alone |
| Osrm.FreshRouteShown | crates/aabox-aapd/src/nav/osrm.rs:475-587 | on a fresh route, however it came, the first turn is shown: its verb, turn, street and distance to the nearest metre |
| Osrm.KeptRouteShown | crates/aabox-aapd/src/nav/osrm.rs:545-593 | on a kept route the next manoeuvre is shown at its distance, one further within 25 metres of one that is not the last |
| Osrm.FailedFetches | crates/aabox-aapd/src/nav/osrm.rs:486-543 | a new destination clears the old route even if its fetch fails; where a failure is the reply and where it is not |
| Osrm.OsrmNavSource.RebuildCurrent | crates/aabox-aapd/src/nav/osrm.rs:399-441 | which step and which distance are shown, in every case |
| Osrm.OsrmNavSource.MinDistToRoute | crates/aabox-aapd/src/nav/osrm.rs:447-458 | the smallest distance to a manoeuvre, `None` on an empty or absent route |
| Osrm.OsrmNavSource.SetDestination | crates/aabox-aapd/src/nav/osrm.rs:475-519 | the new state and the reply, fetch failure included |
| Osrm.OsrmNavSource.UpdatePosition | crates/aabox-aapd/src/nav/osrm.rs:521-594 | the new state and the reply in every branch |

## Left out

- TLS, X.509, RSA, SHA-1 and SHA-256: external libraries. A cipher is any pair of functions whose record numbers agree and whose ciphertext of one fragment is below 64 KiB; a signature is any function whose results the verifier's check accepts.
- SendLoop.Connection.SendEncrypted: does not model a failed write of a frame, or an encryption that fails and still leaves bytes in the TLS connection; a failed encryption leaves the record number alone.
- SendLoop.ControlLoop.TakeTurn: the inbound read that competes in the same select is modelled apart, in `InboundTurns.dfy`.
- SendLoop.WireCarriesLog: does not include unencrypted frames between messages; the reassembler skips them, and the loop sends none.
- ApkSigner.SignedIsVerified: covers files below 4 GiB; the 32-bit fields of larger files are truncated.
- ApkSigner.LocateZipLayout: integers are unbounded, so `cd_offset + cd_size` cannot overflow as it might on a 32-bit host.
- DexWalk.WalkCodeItems: table offsets are computed without the 32-bit wrap-around of `class_defs_off + i * 32` on a malformed header, and the counters kept for logging are absent.
- DexPatch.PatchDex: table offsets of the string, type and field searches are likewise unbounded.
- DexMeaning.MeaningPreserved: exceptions, calls and threads are part of the arbitrary semantics of the other instructions; static fields read through reflection or in other classes' code are outside a method body.
- Pipeline.VideoPipeline.Start: one handle calls start and stop, as the control loop does; the 64-bit generation does not wrap and the counter is a natural number (`Cancellation` bounds it). Session number, wire channel, payload prefix and the choice of the source are absent.
- Pipeline.VideoPipeline.OnMediaAck: one event per ack; the dispatcher that calls it twice for an ack on channel 3 is not modelled.
- VideoSource.ScreenRecordVideoSource.NextFrame: spawning and stopping the child process, and the 64 KiB size of one read, are absent; a read delivers any bytes. Bytes from the last start code on are never handed out, as in the code.
- VideoSource.TestPatternVideoSource.NextFrame: pacing by the clock.
- Base64.Base64Decode: the PEM lines around the body.
- Osrm.OsrmNavSource.UpdatePosition: distances are real numbers, so rounding of floating point and values that are not numbers are absent; texts are kept as their parts rather than formatted.
- Osrm.OsrmNavSource.SetDestination: the request itself, and a future dropped in the middle of it.
- Message dispatch, service descriptors, input, sensor and audio channels, USB and ZIP handling, HTTP and JSON: constant tables, single branches or process plumbing.
