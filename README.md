# libmft core in Dafny

A model of the decoding core of libmft, a Python library that reads the Master File
Table (MFT) of an NTFS volume, with proofs about it. The model covers:

- the sector repair of an entry buffer with its fixup array (`apply_fixup_array`), as an
  in-place method on an `array` proved against a function of the original bytes;
- the data-run decoder of non-resident attributes, as a loop proved against a recursive
  decoder, with an encoder and a round trip;
- the MFT entry header decoder of `libmft/headers.py`, with the layouts it accepts stated
  both ways and a round trip, and its attribute header decoder (resident and non-resident
  forms), with the views it accepts and the error it gives otherwise stated both ways, and
  every header laid out in a view decoding to that header;
- the attribute content decoders of `libmft/attrcontent.py`: timestamps, standard
  information, file name, object id, attribute list, EA, EA information, volume
  information, index root and entries, bitmap, reparse point and junction/mount point;
- `libmft/api.py`: the configuration object, the configured header decoder, the attribute
  dispatcher, the `Datastream` class (fragments, sizes, the VCN sort), the `MFTEntry` class
  (attribute walk, streams, `merge_entries`, the file name queries) and the `MFT` class
  (entry stubs, the parent/child tables, `__iter__`, `__getitem__`, `_read_full_entry`);
- `libmft/api2.py`: its `Datastream` with pending fragments and `_collapse`, its
  attribute and entry decoders, its `MFTEntry` class and its `__getitem__` lookup.

Bytes are `Byte = x: int | 0 <= x < 256`, buffers are `seq<Byte>` (or an `array<Byte>`
where the source writes to a `bytearray` in place), and little-endian integers are read
in place with the clamping of Python slices (`Bytes.LeUintAt`). Errors that the source
raises are `Failure` values of `Result` datatypes; Python loops that never end (a zero
length record) are a `NoProgress` error. The MFT file is a sequence of entry buffers.

Modules: `Wrappers`, `Bytes`, `Functions` (libmft/util/functions.py), `Fixup`,
`DataRuns`, `Headers` (libmft/headers.py), `AttrContent`, `AttrLists`, `IndexRoots`,
`Bitmaps` (libmft/attrcontent.py), `ApiConfig`, `ApiHeader`, `ApiAttribute`, `ApiStream`,
`ApiFileName`, `ApiEntry`, `ApiMft` (libmft/api.py), `Api2Stream`, `Api2`
(libmft/api2.py).

## Model

| member | source | states |
|---|---|---|
| Functions.SplitFileReference | libmft/util/functions.py:24-36 | the record number is below 2^48 and the sequence number below 2^16, and for a 64-bit reference they recombine to it |
| Functions.JoinFileReference | libmft/util/functions.py:24-36 | the reference built from a record and a sequence number fits in 64 bits |
| Functions.SplitJoin | libmft/util/functions.py:24-36 | splitting a joined reference gives back its record and sequence numbers |
| Functions.BisectLeft | libmft/util/functions.py:96 | the position returned splits the sorted list into items below `x` and items at or above it |
| Functions.ExistsBisect | libmft/util/functions.py:91-99 | on a sorted list the result is a success exactly when the item is in the list, and then it is True; an absent item gives the error of `raise False` |
| Headers.IsRelatedReference | libmft/util/functions.py:82-89 | a child entry is related to a parent exactly when its raw 64-bit base record reference is the parent's file reference |
| Fixup.ApplyFixupArray | libmft/util/functions.py:38-65 | the outcome and the buffer after the in-place repair are those of `Fixup` on the original bytes |
| Fixup.RepairTail | libmft/util/functions.py:56-64 | one turn of the loop: it stops with the check's outcome and leaves the buffer as it was, or writes the fixup element over the tail |
| Fixup.AssignSlice | libmft/util/functions.py:59 | the slice assignment writes the replacement bytes from `lo` on and leaves every other byte as it was |
| Fixup.TailStartIsProduct | libmft/util/functions.py:55-64 | the tail of sector `i` starts at `sector * i - 2`, the position the loop reaches after `i` turns |
| Fixup.FixupFromStep | libmft/util/functions.py:56-64 | a turn whose checks pass hands the repaired bytes on to the next sector |
| Fixup.FixupFromHalts | libmft/util/functions.py:57-62 | a turn whose checks fail ends the loop with their outcome and the bytes as they are |
| Fixup.FixupStartsLoop | libmft/util/functions.py:49-55 | with two or more fixup elements and a positive sector size, the repair is the loop from sector 1 |
| Fixup.FixupResult | libmft/util/functions.py:38-65 | on an entry whose fixup array lies between two tails, the repair ends with the verdict of the first sector it cannot repair, having repaired every sector before it (a partial update on failure) |
| Fixup.FixupAppliedIff | libmft/util/functions.py:56-64 | on such an entry the repair succeeds exactly when every visited tail holds the signature and has a fixup element |
| Fixup.StopIsFirstBad | libmft/util/functions.py:56-64 | the sector where the loop stops is the first one past the end or not repairable, and all before it are repairable |
| Fixup.StopPastEnd | libmft/util/functions.py:56-64 | the loop runs past the end exactly when every visited sector is repairable |
| Fixup.RepairedOnlyTails | libmft/util/functions.py:59 | a byte the repair changes lies in the tail of a repaired sector |
| Fixup.RepairedTail | libmft/util/functions.py:59 | after the repair the tail of each repaired sector holds that sector's fixup element |
| Fixup.RepairedFrame | libmft/util/functions.py:56-64 | every byte the repair changes lies in one tail, which holds the fixup element of its sector |
| Fixup.RepairedBeyond | libmft/util/functions.py:56-64 | repairing sectors 1..n leaves every byte after tail `n` untouched |
| Fixup.RepairedBetween | libmft/util/functions.py:56-64 | repairing leaves the bytes between two tails untouched |
| Fixup.StopWholeSectors | libmft/util/functions.py:52-64 | with whole sectors the visited tails are those of sectors 1..fx_count-1, and the loop runs past the end exactly when they all hold the signature |
| Fixup.WholeSectorsLastTail | libmft/util/functions.py:52-53 | when the entry size is a multiple of `fx_count - 1`, the last tail is the final two bytes of the entry |
| Fixup.FixupWholeSectors | libmft/util/functions.py:38-65 | for whole sectors of at least three bytes the repair succeeds exactly when the tails of sectors 1..fx_count-1 hold the signature, and then it rewrites exactly those tails |
| Fixup.SignatureCompare | libmft/util/functions.py:57 | the two-byte slice comparison with the signature holds exactly when the tail lies inside the buffer and both bytes match |
| Fixup.ReplacementSlice | libmft/util/functions.py:59 | fixup element `i` is the pair of bytes at `fx_offset + 2i`, and an empty slice past the array |
| DataRuns.DecodeRun | libmft/headers.py:189-200 | the next run starts after the header byte and the two fields the nibbles count; the run is sparse exactly when the high nibble is 0; only a non-sparse run moves the running offset |
| DataRuns.DecodeRunFields | libmft/headers.py:190-200 | the run length is the unsigned little-endian field of the low-nibble size, and the offset the signed field of the high-nibble size added to the previous offset |
| DataRuns.ReadRun | libmft/headers.py:189-200 | the body of the loop computes the run, the next position and the running offset of `DecodeRun` |
| DataRuns.DecodeRuns | libmft/headers.py:171-201 | the decoding loop returns the recursive decoding from position 0 with running offset 0 |
| DataRuns.DecodeRunsStep | libmft/headers.py:188-201 | a non-zero header byte contributes its run and the decoding goes on after it |
| DataRuns.NoTerminatorFails | libmft/headers.py:188 | a view without a zero header byte from the start position on fails with a missing terminator |
| DataRuns.SuccessHasTerminator | libmft/headers.py:188 | a successful decoding met a zero header byte past one header per run |
| DataRuns.LengthField | libmft/headers.py:190-197 | the encoded length field has the fewest bytes that hold the length |
| DataRuns.OffsetField | libmft/headers.py:194-197 | the encoded offset field is empty for a sparse run and otherwise has the fewest bytes of the relative offset |
| DataRuns.EncodeRun | libmft/headers.py:188-200 | an encoded run has a non-zero header byte and at least one field byte |
| DataRuns.DecodeEncodeRun | libmft/headers.py:189-200 | decoding an encoded run, wherever it sits, gives that run and moves just past it |
| DataRuns.DecodeEncodeRuns | libmft/headers.py:171-201 | decoding an encoded run list, wherever it sits and whatever follows it, gives back the runs |
| DataRuns.RoundTrip | libmft/headers.py:171-201 | `DataRuns.__init__` inverts the encoder: the runs come back from their encoding followed by any bytes |
| DataRuns.RunFitsBounds | libmft/headers.py:190-197 | every run fits in the fifteen bytes a nibble can count, so every run list has an encoding |
| Headers.DecodeMftHeader | libmft/headers.py:107-144 | a decoded header passed the checks: the fixup array starts at or after byte 48 and the logical size is at most the allocated size, with the signature FILE or BAAD recorded |
| Headers.ReadMftHeader | libmft/headers.py:113-143 | the fields read fit their widths in the layout and the BAAD flag is the one given |
| Headers.DecodeMftHeaderIff | libmft/headers.py:107-144 | the decoder accepts a view with a header exactly when the view holds that header's fields and the header passes the checks |
| Headers.MftHeaderRoundTrip | libmft/headers.py:107-144 | the decoder reads back every accepted header from its encoding followed by any bytes |
| Headers.EncodeMftHeader | libmft/headers.py:113 | the encoded header is 48 bytes long |
| Headers.EncodeMftFieldsAt | libmft/headers.py:113-143 | the encoded header holds each field at its offset in the layout |
| Headers.DecodeAttributeHeader | libmft/headers.py:288-315 | a decoded attribute header is well formed: it has a name exactly when the name length is non-zero, a non-resident header exactly when the non-resident flag is set, and no always-resident type is non-resident |
| Headers.DecodeResident | libmft/headers.py:313 | what is decoded after the attribute header of a resident attribute is a resident header |
| Headers.DecodeNonResident | libmft/headers.py:234-248 | what is decoded for a non-resident attribute is a non-resident header with its data runs |
| Headers.AlwaysResidentRejected | libmft/headers.py:308-310 | an always-resident type with the non-resident flag set is refused, whatever else the view holds |
| Headers.DecodeAttributeHeaderIff | libmft/headers.py:288-315 | the decoder succeeds exactly on a whole header that is not an always-resident type marked non-resident and is followed by its resident header, or by its non-resident header and terminated runs; it then reads each field at its offset and the name as the clamped slice, and otherwise fails with AlwaysResident, RunsMissingTerminator or Truncated as the first refusing check gives |
| Headers.DecodeAttributeHeaderLaidOut | libmft/headers.py:288-315 | the decoder reads back every well-formed attribute header, name and form that the view lays out |
| Headers.DecodeFormAt | libmft/headers.py:234-248 | a resident or non-resident header laid out in the view decodes to itself |
| AttrContent.ReadTimestamps | libmft/attrcontent.py:100-126 | the four timestamps read fit in 64 bits each |
| AttrContent.DecodeTimestamps | libmft/attrcontent.py:100-126 | the decoder succeeds exactly on a view of 32 bytes |
| AttrContent.EncodeTimestamps | libmft/attrcontent.py:100-126 | the encoding of the timestamps is 32 bytes long |
| AttrContent.TimestampsRoundTrip | libmft/attrcontent.py:100-126 | decoding encoded timestamps gives them back |
| AttrContent.DecodeStandardInformation | libmft/attrcontent.py:199-225 | the decoder succeeds exactly on 72 or 48 bytes, and reads the NTFS 3 extension exactly on 72 |
| AttrContent.DecodeStandardInformationIff | libmft/attrcontent.py:199-225 | the decoder accepts a view with a record exactly when the view has the record's size and holds its fields |
| AttrContent.EncodeStandardInformation | libmft/attrcontent.py:199-225 | the encoding has the size of the short layout, or of the NTFS 3 layout when the record has the extension |
| AttrContent.StandardInformationRoundTrip | libmft/attrcontent.py:199-225 | decoding an encoded standard information record gives it back |
| AttrContent.DecodeFileName | libmft/attrcontent.py:649-682 | the decoder succeeds exactly on a view of at least 66 bytes, with the parent reference split into 48 and 16 bits |
| AttrContent.DecodeFileNameIff | libmft/attrcontent.py:649-682 | the decoder accepts a view with a file name exactly when the view holds its fixed fields and its name |
| AttrContent.EncodeFileNameHead | libmft/attrcontent.py:649-682 | the fixed part of the layout is 66 bytes long |
| AttrContent.FileNameRoundTrip | libmft/attrcontent.py:649-682 | decoding an encoded file name gives it back |
| AttrContent.UuidAt | libmft/attrcontent.py:448 | id `i` is absent when it starts past the content, fails when the content ends inside it, and is present otherwise |
| AttrContent.DecodeObjectId | libmft/attrcontent.py:432-451 | a decoded object id has four ids, each present exactly when it starts inside the content |
| AttrContent.ObjectIdAccepted | libmft/attrcontent.py:432-451 | the content is refused exactly when it ends inside one of the first four ids |
| AttrContent.ObjectIdPieces | libmft/attrcontent.py:448 | a present id is the 16 bytes at its position |
| AttrContent.ObjectIdSizeAsWrittenOverCounts | libmft/attrcontent.py:429 | a content of one id is accepted and its size as written is 64 |
| AttrContent.ObjectIdSizeIsLength | libmft/attrcontent.py:429 | with the corrected count, the size of an accepted content of at most four ids is its length |
| AttrContent.DecodeJunctionOrMount | libmft/attrcontent.py:1058-1078 | the view is refused exactly when it is shorter than the four "<4H" fields; the target name and the print name are the bytes at the reparse header size plus the offsets at bytes 0 and 4, as long as the lengths at bytes 2 and 6 (clamped to the view) |
| AttrContent.JunctionOrMountRoundTrip | libmft/attrcontent.py:1058-1078 | a junction laid out with its two names after the four fields decodes to those names |
| AttrContent.DecodeReparsePoint | libmft/attrcontent.py:1122-1148 | the flags fit in four bits and the type in sixteen; a GUID is read exactly when the tag is not a Microsoft one; the data is a junction exactly for a Microsoft mount point or symbolic link tag, and then it is the junction decoded from the view after the reparse header; the view is refused exactly when it is shorter than the reparse header, or than the reparse header and the junction fields for such a tag |
| AttrContent.TagSplit | libmft/attrcontent.py:1138-1139 | the two masks take the top four bits and the low sixteen bits, and the tag is these plus the twelve reserved bits between |
| AttrContent.DecodeVolumeInformation | libmft/attrcontent.py:543-562 | the whole view is unpacked, so it is accepted exactly when it has 12 bytes; the versions fit in a byte and the flags in sixteen bits |
| AttrContent.VolumeInformationRoundTrip | libmft/attrcontent.py:517-562 | the decoder reads back the versions and flags of an encoded record |
| AttrContent.DecodeEaInformation | libmft/attrcontent.py:1179-1182 | the first eight bytes are unpacked, so a view is accepted exactly when it has at least eight; the fields fit their "<2HI" widths |
| AttrContent.EaInformationRoundTrip | libmft/attrcontent.py:1161-1182 | the decoder reads back an encoded record whatever follows it |
| AttrContent.EaInformationInit | libmft/attrcontent.py:1170-1171 | the constructor handed a view accepts it exactly when it has three items, and then each field is one byte |
| AttrContent.EaInformationInitRefusesRecord | libmft/attrcontent.py:1161-1182 | the eight-byte record is refused by the constructor and read back by `create_from_binary` |
| AttrLists.DecodeAttrListEntry | libmft/attrcontent.py:298-325 | the decoder succeeds exactly on 26 bytes or more; a name is read exactly when the name length is non-zero, and it has `2 * n` bytes when they fit |
| AttrLists.DecodeAttributeList | libmft/attrcontent.py:358-384 | the loop returns the walk `Chain` over the entries, each `entry_len` bytes after the one before |
| AttrLists.AttributeListLaid | libmft/attrcontent.py:358-384 | an attribute list is read as `es` exactly when the entries of `es` lie back to back from the start, every one but the last non-empty and ending inside the content, and the last reaching the end |
| AttrLists.Walk | libmft/attrcontent.py:371-380 | the append loop returns the recursive walk from offset 0 |
| AttrLists.ChainIff | libmft/attrcontent.py:371-380 | the walk succeeds with `es` exactly when `es` lies back to back in the view |
| AttrLists.ChainLaid | libmft/attrcontent.py:371-380 | what the walk returns lies back to back in the view |
| AttrLists.LaidChain | libmft/attrcontent.py:371-380 | whatever lies back to back in the view is what the walk returns |
| AttrLists.EaValueOffset | libmft/attrcontent.py:1249-1250 | the value starts at the first multiple of 8 at or after the end of the name |
| AttrLists.DecodeEaEntry | libmft/attrcontent.py:1240-1258 | the decoder succeeds exactly on 8 bytes or more; the name is the bytes after the header, cut at the end of the view; the value is read from the aligned offset |
| AttrLists.DecodeEa | libmft/attrcontent.py:1279-1294 | the loop returns the walk over the EA entries, each `offset_next_ea` bytes after the one before |
| AttrLists.EaLaid | libmft/attrcontent.py:1279-1294 | an EA content is read as `es` exactly when the entries of `es` lie back to back in it |
| IndexRoots.ChildVcnOffset | libmft/attrcontent.py:869-872 | the child VCN is read within 8 bytes after the content, at a point from which the entry's end is a whole number of 8-byte steps |
| IndexRoots.DecodeKey | libmft/attrcontent.py:864-867 | the key is a file name exactly in a FILE_NAME index whose `content_len` is not 0, decoded from the key bytes and failing exactly when they are shorter than a file name; otherwise it is the raw key bytes |
| IndexRoots.DecodeIndexEntry | libmft/attrcontent.py:845-879 | decoding succeeds exactly when the header is whole, the key decodes and a child VCN, when flagged, lies inside the view; the entry then holds the four header fields, the key decoded from the `content_len` bytes after the header, and a child VCN exactly when CHILD_NODE_EXISTS is set, read where the entry's end is a whole number of 8-byte steps away |
| IndexRoots.CutFileNameKeyFails | libmft/attrcontent.py:864-865 | every FILE_NAME index entry with a non-zero `content_len` whose key holds fewer than 66 bytes, because `content_len` is smaller or the view ends first, fails with the error of `struct.unpack` |
| IndexRoots.IndexEntryKeyAt | libmft/attrcontent.py:859-867 | an encoded entry holds its header fields and its key bytes where the decoder reads them |
| IndexRoots.IndexEntryVcnAt | libmft/attrcontent.py:869-872 | an encoded entry with a child node holds its VCN where the decoder reads it |
| IndexRoots.IndexEntryRoundTrip | libmft/attrcontent.py:845-879 | decoding an encoded entry, whatever bytes follow it, gives the entry back |
| IndexRoots.IndexEntryNeedsBytes | libmft/attrcontent.py:845-879 | no entry is decoded from an empty view |
| IndexRoots.IndexEntriesIff | libmft/attrcontent.py:961-969 | the entries of a node are read as `es` exactly when they lie one after the other and only the last is flagged LAST_ENTRY |
| IndexRoots.IndexEntriesEndAtLast | libmft/attrcontent.py:961-969 | the entries read end with the one flagged LAST_ENTRY, and only it |
| IndexRoots.UntilLaid | libmft/attrcontent.py:961-969 | the records the walk returns lie one after the other and end at the last one |
| IndexRoots.LaidUntil | libmft/attrcontent.py:961-969 | records lying one after the other and ending at the last one are what the walk returns |
| IndexRoots.IndexRootOf | libmft/attrcontent.py:943-976 | the content is refused exactly when it is shorter than the root fields and the node header, or its entries cannot be read; a decoded index root holds the index type (none for 0), the collation rule and the index record sizes read from its fields, the node header right after them, and the entries read from 16 bytes past the node header's start offset, ending with the last entry |
| IndexRoots.IndexRootHeadAt | libmft/attrcontent.py:954-975 | a view starting with encoded root fields and node header reads them back |
| IndexRoots.RootFieldsAt | libmft/attrcontent.py:954-975 | the "<3IB3x" root fields read back, with 0 read as no index type |
| IndexRoots.NodeHeaderAt | libmft/attrcontent.py:766-781 | the "<4I" node header after the root fields reads back |
| IndexRoots.IndexRootLaidOut | libmft/attrcontent.py:943-976 | an index root laid out in the view, its entries from the node header's start offset ending with the last one, is the root the decoder returns |
| IndexRoots.WalkUntil | libmft/attrcontent.py:961-969 | the loop returns the recursive walk up to and including the last entry |
| IndexRoots.DecodeIndexRoot | libmft/attrcontent.py:943-976 | the method returns the index root of the content |
| Bitmaps.EntryAllocated | libmft/attrcontent.py:1012-1015 | succeeds exactly for entry numbers in `-8n..8n-1`; a non-negative number gives its bit, a negative one the bit counted from the end |
| Bitmaps.AllocatedEntries | libmft/attrcontent.py:1005-1010 | the result is ascending and holds exactly the entries whose bit is set |
| Bitmaps.NextEmpty | libmft/attrcontent.py:1017-1024 | the result is the first clear entry, and none exactly when every entry is allocated |
| Bitmaps.FullBitmap | libmft/attrcontent.py:1017-1024 | every entry is allocated exactly when every byte is 0xFF |
| Bitmaps.AllocatedIsBitOfNumber | libmft/attrcontent.py:1012-1015 | entry `n` is allocated exactly when bit `n` of the little-endian number of the bitmap is set |
| ApiConfig.MftConfig.constructor | libmft/api.py:147-159 | every attribute type is loaded, every switch is on and the entry size is 0 (detected) |
| ApiConfig.MftConfig.SetLoadAttr | libmft/api.py:164-169 | the type is loaded exactly as asked afterwards, whether any other type is loaded does not change, and the other settings stay |
| ApiHeader.DecodeEntryHeader | libmft/api.py:248-285 | a decoded header passed the checks of api.py, and its BAAD flag is unset exactly when the signature is ignored |
| ApiHeader.CheckedAgreesWithHeaders | libmft/api.py:264-278 | with the signature checked, the decoder accepts exactly what libmft/headers.py accepts with the first attribute past the header, and reads the same header |
| ApiHeader.IgnoringSignature | libmft/api.py:264-271 | ignoring the signature accepts every view the checked decoder accepts, reading the same fields with the flag unset, and whatever the signature |
| ApiHeader.EntryHeaderRoundTrip | libmft/api.py:248-285 | the checked decoder reads back every header it accepts from its encoding |
| ApiAttribute.Dispatch | libmft/api.py:434-448 | a type without a decoder fails as unknown exactly when it is not in the table; a decoded content is of the variant the table gives the type |
| ApiAttribute.CreateAttribute | libmft/api.py:466-474 | a created attribute carries the decoded header and content of its type; a header failure is reported as such |
| ApiAttribute.WithContent | libmft/api.py:466-474 | the attribute built from a header keeps that header and is well typed |
| ApiAttribute.ResidentContentIsItsBytes | libmft/api.py:466-474 | the content of a resident attribute is decoded from exactly its `content_len` bytes at `content_offset`, whatever surrounds them |
| ApiAttribute.GetAttrInfo | libmft/api.py:587 | the type, length and non-resident flag are read exactly from a view of 16 bytes or more |
| ApiAttribute.AttrInfoOfHeader | libmft/api.py:587 | the triple read is that of the full attribute header |
| ApiStream.AddData | libmft/api.py:373-395 | adding fails exactly for an attribute that is not DATA or names another stream; the name stays, and the sorted flag is only set while fragments are in order |
| ApiStream.AddFrom | libmft/api.py:397-412 | merging fails exactly for a stream of another name or into a resident stream; the name stays and the sorted flag stays truthful |
| ApiStream.ContentOf | libmft/api.py:341-346 | the content is given exactly for a resident stream, and it is its data |
| ApiStream.ContentAsWritten | libmft/api.py:341-346 | as written the property always fails |
| ApiStream.ResidentContentLost | libmft/api.py:341-346 | a stream made of one resident DATA attribute has content, which the property as written never returns |
| ApiStream.SortByVcnSortsStably | libmft/api.py:363-365 | the sort orders fragments by first VCN, is a permutation, and keeps fragments with the same VCN in the order they were added |
| ApiStream.SortByVcnKeepsSorted | libmft/api.py:363-365 | fragments already in order are left as they are |
| ApiStream.AddAllFragments | libmft/api.py:379-390 | after non-resident attributes the cluster count is the largest last VCN, the sizes are those of the last fragment from VCN 0, and the fragments are the attributes' in order |
| ApiStream.MergeIsAddingAll | libmft/api.py:397-412 | merging a child entry's stream into the base entry's stream gives the stream one would get from all the attributes in one entry |
| ApiStream.Datastream.constructor | libmft/api.py:325-339 | a new stream has its name, nothing else, and a truthful sorted flag |
| ApiStream.Datastream.AddDataAttribute | libmft/api.py:373-395 | the stream becomes `AddData` of the old stream, or stays as it was on an error |
| ApiStream.Datastream.AddFromDatastream | libmft/api.py:397-412 | the stream becomes `AddFrom` of the old stream and the other one, or stays as it was |
| ApiStream.Datastream.Dataruns | libmft/api.py:357-367 | a resident stream raises and is unchanged; otherwise the run lists come sorted by VCN and the fragments are sorted in place |
| ApiFileName.LowestId | libmft/api.py:656-660 | the position is the first one holding the lowest attribute id |
| ApiFileName.PickBest | libmft/api.py:663-667 | the pick shares the parent of the start, and no attribute with that parent has a lower name space code |
| ApiFileName.FirstLowestId | libmft/api.py:656-660 | the first pass finds the attribute of lowest id, none for an empty list |
| ApiFileName.BestWithParent | libmft/api.py:663-667 | the second pass returns `PickBest` |
| ApiFileName.MainFilenameOk | libmft/api.py:644-669 | the main file name is absent exactly for an empty list; otherwise it is a member, shares its parent with the attribute of lowest id, and has the lowest code among those |
| ApiFileName.FindParent | libmft/api.py:678-684 | the position found holds the parent, and none means no attribute has it |
| ApiFileName.ControlStep | libmft/api.py:678-684 | one step keeps every value a FILE_NAME attribute |
| ApiFileName.ControlStepOk | libmft/api.py:678-684 | one step keeps the `control` promise for the list grown by the attribute |
| ApiFileName.ControlOk | libmft/api.py:671-687 | the `control` values hold only attributes of the list, one per parent, every parent present, each with its parent's lowest name space code |
| ApiFileName.FillControl | libmft/api.py:676-685 | the loop builds the `control` values of the list |
| ApiEntry.AddToGroup | libmft/api.py:566-572 | the attribute goes to the end of its type's list, and every other type's list is unchanged |
| Wrappers.IndexOf | libmft/api.py:551-555 | the position found is that of the first item whose key is the one sought, and there is none exactly when no item has that key |
| ApiEntry.FindStream | libmft/api.py:551-555 | the position found is the first stream of that name, and none means no stream has it |
| ApiEntry.AddToStreams | libmft/api.py:557-564 | stream names stay unique; without a stream of the name, a new one is appended after the others |
| ApiEntry.RouteKeepsLoadedOk | libmft/api.py:590-593 | routing keeps attributes grouped by type, outside DATA, and stream names unique |
| ApiEntry.Load | libmft/api.py:589-593 | an attribute decoded and routed keeps the entry well formed |
| ApiEntry.StepAt | libmft/api.py:582-594 | a step moves strictly forward inside the view and keeps the entry well formed |
| ApiEntry.Walk | libmft/api.py:574-594 | a finished walk leaves the entry well formed |
| ApiEntry.WalkFilters | libmft/api.py:587-588 | the load set only filters: a narrower walk succeeds whenever the wider one does and keeps exactly its attributes of the loaded types |
| ApiEntry.StepAtSucceeds | libmft/api.py:582-594 | a step succeeds only on a readable attribute of non-zero length that decodes when its type is loaded |
| ApiEntry.StepAtValue | libmft/api.py:587-594 | on such an attribute the step moves `attr_len` bytes forward |
| ApiEntry.StepAtKept | libmft/api.py:588-593 | an attribute of a loaded type is decoded and routed |
| ApiEntry.StepAtSkipped | libmft/api.py:588-594 | an attribute of a type not loaded is stepped over without decoding |
| ApiEntry.StepAtFails | libmft/api.py:582-594 | the three ways a step fails, in the order the source meets them |
| ApiEntry.WalkAtEnd | libmft/api.py:582 | a walk that starts on the end marker loads nothing more |
| ApiEntry.SizedHeader | libmft/api.py:529-541 | the header accepted passed the checks and the buffer is exactly its allocated length; a length mismatch is reported with both sizes |
| ApiEntry.CreateEntry | libmft/api.py:507-549 | a created entry has the checked header and a well-formed set of attributes and streams |
| ApiEntry.EmptyEntryRoundTrip | libmft/api.py:507-549 | an encoded header padded to its allocated length, with the end marker at its first attribute, reads back as that header with nothing loaded |
| ApiEntry.EmptyEntry | libmft/api.py:507-549 | an entry whose first attribute is the end marker loads nothing |
| ApiEntry.UnrepairedEntry | libmft/api.py:507-549 | without the repair, the entry is its checked header and what the walk from its first attribute loads |
| ApiEntry.EncodedEntrySized | libmft/api.py:529-541 | an encoded header padded to its allocated length passes the length check |
| ApiEntry.UsageFlagsOnDisk | libmft/api.py:689-701 | an entry is deleted exactly when byte 22 is even, and a directory exactly when bit 1 of byte 22 is set |
| ApiEntry.MergeGroups | libmft/api.py:607-609 | each type's list is the parent's followed by the child's |
| ApiEntry.MergeGroupsOk | libmft/api.py:607-609 | merging keeps attributes grouped by type, outside DATA |
| ApiEntry.MergeStreamOk | libmft/api.py:611-616 | one stream merged keeps names unique and adds its name |
| ApiEntry.MergeStreamsOk | libmft/api.py:611-616 | merging keeps one stream per name, the names are those of both entries, and sorted flags stay truthful |
| ApiEntry.MergeStreamsFailure | libmft/api.py:611-616 | merging fails exactly when the child has a stream named like a resident stream of the parent |
| ApiEntry.FileNamesCarryContent | libmft/api.py:644-687 | every kept FILE_NAME attribute carries its decoded content |
| ApiEntry.MftEntry.constructor | libmft/api.py:495-505 | a new entry has its header and nothing loaded |
| ApiEntry.MftEntry.FindDatastream | libmft/api.py:551-555 | the stream object returned is the one at the position `FindStream` gives |
| ApiEntry.MftEntry.AddAttribute | libmft/api.py:566-572 | the lists become `AddToGroup` of the old ones and the streams stay |
| ApiEntry.MftEntry.AddDatastream | libmft/api.py:557-564 | the streams become `AddToStreams` of the old ones and the lists stay |
| ApiEntry.MftEntry.AppendStream | libmft/api.py:561-564 | a new stream object holding the attribute goes at the end |
| ApiEntry.MftEntry.FeedStream | libmft/api.py:560-564 | the stream object of the attribute's name takes it |
| ApiEntry.MftEntry.Keep | libmft/api.py:590-593 | the entry becomes `Route` of its old contents |
| ApiEntry.MftEntry.LoadAttributes | libmft/api.py:574-594 | the loop succeeds exactly when `Walk` does, leaving the entry's contents as the walk gives them |
| ApiEntry.MftEntry.LoadAttribute | libmft/api.py:589-593 | the entry becomes `Load` of its old contents |
| ApiEntry.MftEntry.LoadOne | libmft/api.py:582-594 | one turn gives the next offset and contents of `StepAt` |
| ApiEntry.MftEntry.CreateFromBinary | libmft/api.py:507-549 | the entry and its error are those of `CreateEntry` on the original bytes, and the buffer afterwards is the repaired one |
| ApiEntry.MftEntry.LoadNew | libmft/api.py:535-545 | a new entry loaded from the view succeeds exactly when `Walk` does, with its error otherwise |
| ApiEntry.MftEntry.MergeEntries | libmft/api.py:602-616 | the lists become `MergeGroups`, and the streams `MergeStreams` of both entries' streams |
| ApiEntry.MftEntry.MergeAttributes | libmft/api.py:607-609 | the lists become `MergeGroups` of the old ones and the child's |
| ApiEntry.MftEntry.MergeType | libmft/api.py:607-609 | one more type of the child is appended |
| ApiEntry.MftEntry.AppendGroup | libmft/api.py:608-609 | the child's list of one type is appended to the parent's |
| ApiEntry.MftEntry.MergeAllStreams | libmft/api.py:611-616 | the streams become `MergeStreams` of the old ones and the child's |
| ApiEntry.MftEntry.MergeStep | libmft/api.py:611-616 | one turn merges the child's stream at `k` |
| ApiEntry.MftEntry.MergeStreamObject | libmft/api.py:612-616 | the child's stream is merged into the parent's stream of its name, or appended |
| ApiEntry.MftEntry.AppendStreamObject | libmft/api.py:615-616 | the child's stream object goes at the end |
| ApiEntry.MftEntry.MergeInto | libmft/api.py:613-614 | the parent's stream becomes `AddFrom` of it and the child's |
| ApiEntry.MftEntry.MainFilenameAttr | libmft/api.py:644-669 | the two passes return the main file name of the FILE_NAME list |
| ApiEntry.MftEntry.UniqueFilenameAttrs | libmft/api.py:671-687 | the `control` loop returns the unique file names of the FILE_NAME list |
| ApiMft.LoadStub | libmft/api.py:726-741 | no stub exactly for an entry starting with four zero bytes; a stub carries its entry number |
| ApiMft.StubAgreesWithHeader | libmft/api.py:726-741 | a stub reads the same sequence number and base record as the full header decoder |
| ApiMft.StubsOf | libmft/api.py:869-874 | stub `i` is read from the first bytes of entry `i` |
| ApiMft.MapStubsOk | libmft/api.py:877-884 | the mapping succeeds exactly when no entry names a base record past the end or empty, and then the tables hold exactly the empty entries, the child-to-base links and the base-to-children lists |
| ApiMft.MapStubsFailureSticks | libmft/api.py:877-884 | after a failure the later stubs are not looked at |
| ApiMft.ChildrenBelowMembers | libmft/api.py:877-884 | an entry is listed under `p` exactly when it is a child entry whose base record is `p`, in ascending order |
| ApiMft.TablesAgree | libmft/api.py:877-884 | the two relation tables agree, and no empty entry is a child |
| ApiMft.ListedMembers | libmft/api.py:905-919 | the entries given are exactly those neither empty nor child entries, ascending |
| ApiMft.IterateFailureSticks | libmft/api.py:905-919 | once `__iter__` has raised it does not go on |
| ApiMft.IterateNeverRaises | libmft/api.py:905-919 | over tables mapped from the same entries `__iter__` never raises and gives the listed entries |
| ApiMft.IterateAfterLoad | libmft/api.py:905-919 | after `_load_stub_info` succeeds, `__iter__` gives exactly the entries neither empty nor child, ascending, and never raises |
| ApiMft.DecodeAll | libmft/api.py:886-903 | there is one decoding per entry |
| ApiMft.DecodeAllAt | libmft/api.py:886-903 | entry `i` is decoded from its own buffer and a decoded entry is well formed |
| ApiMft.DecodeAllOk | libmft/api.py:886-903 | every decoded entry is well formed |
| ApiMft.MergedIsAddChild | libmft/api.py:900-901 | what `merge_entries` leaves in an entry is the outcome of adding the child |
| ApiMft.FullEntryStep | libmft/api.py:897-901 | one more child entry read is the entry so far with that child added |
| ApiMft.FullEntryOk | libmft/api.py:886-903 | a full entry is well formed and has the header of the base entry |
| ApiMft.FullEntryFailureSticks | libmft/api.py:897-901 | a child that fails to decode or merge fails the whole read |
| ApiMft.Mft.constructor | libmft/api.py:784-805 | the MFT holds its configuration and entries and empty tables |
| ApiMft.Mft.LoadStubInfo | libmft/api.py:854-884 | the method succeeds exactly when the mapping over the stubs does, and the tables become its result |
| ApiMft.Mft.MapOne | libmft/api.py:878-884 | one turn of the mapping loop for entry `i` |
| ApiMft.Mft.ReadFullEntry | libmft/api.py:886-903 | the entry read succeeds exactly when `FullEntry` does, with its header and contents |
| ApiMft.Mft.MergeChildren | libmft/api.py:897-901 | the loop decodes and merges each child entry in order |
| ApiMft.Mft.AddChildAt | libmft/api.py:898-901 | one child entry decoded and merged |
| ApiMft.Mft.ReadOne | libmft/api.py:896-900 | an entry read succeeds exactly when its decoding does, with its error otherwise |
| ApiMft.Mft.MergeChild | libmft/api.py:900-901 | the child entry's attributes and streams are merged into the entry |
| ApiMft.Mft.GetItem | libmft/api.py:921-929 | an empty entry and a child entry are refused; any other entry is read with its children merged |
| ApiMft.Mft.IterEntries | libmft/api.py:905-919 | the entry numbers visited are those of `Iterate` |
| Api2Stream.NewStreamOk | libmft/api2.py:70-78 | a new stream is consistent and not resident |
| Api2Stream.PutReplaces | libmft/api2.py:94 | the dictionary write keeps keys unique, holds the new fragment, keeps every other key and drops only the old one of the same key |
| Api2Stream.PassChains | libmft/api2.py:119-124 | a pass moves a chain of fragments from the count it starts with, ends the count there, and moves or keeps every item |
| Api2Stream.PassIdle | libmft/api2.py:119-124 | a pass moves nothing exactly when no item is keyed the count plus one, and then keeps all |
| Api2Stream.PassKept | libmft/api2.py:119-127 | the items a pass keeps are the items without the moved keys, and keys stay unique |
| Api2Stream.CollapseChains | libmft/api2.py:110-127 | the fragments `_collapse` moves form one chain from the starting count, the count ends at its last cluster, and nothing is dropped |
| Api2Stream.CollapseLinks | libmft/api2.py:110-127 | the moved fragments form one chain and the count ends at its last cluster |
| Api2Stream.CollapseKeepsAll | libmft/api2.py:110-127 | no fragment is dropped, and no pending fragment is keyed the final count plus one |
| Api2Stream.CollapseKeepsUnique | libmft/api2.py:110-127 | pending keys stay unique through the collapse |
| Api2Stream.CollapseIdempotent | libmft/api2.py:116-127 | collapsing again moves nothing |
| Api2Stream.NextFragmentLeads | libmft/api2.py:116-124 | a fragment keyed the count plus one is the first one moved |
| Api2Stream.AddFragmentOk | libmft/api2.py:90-99 | a fragment added to a non-resident stream leaves it consistent, non-resident and with its name |
| Api2Stream.AddDataKeepsStream | libmft/api2.py:81-105 | adding data keeps the stream consistent and its name; it is resident afterwards exactly when the data is resident or it already was |
| Api2Stream.ResidentDataSizes | libmft/api2.py:100-105 | resident data sets both sizes to the content length and makes the stream resident |
| Api2Stream.FirstFragmentLeads | libmft/api2.py:95-98 | the fragment at VCN 0 gives the sizes and its run list is the first one appended |
| Api2Stream.AddFragmentChains | libmft/api2.py:90-99 | after a fragment is added, the run lists are the old ones followed by a chain of fragments from the old count |
| Api2Stream.Datastream2.constructor | libmft/api2.py:70-78 | a new stream has its name, nothing taken and nothing pending |
| Api2Stream.Datastream2.IsResident | libmft/api2.py:129-133 | the stream is resident exactly when it has no run lists |
| Api2Stream.Datastream2.AddDataAttribute | libmft/api2.py:81-105 | the stream becomes `AddData2` of the old one and the error raised is its error |
| Api2Stream.Datastream2.AddPending | libmft/api2.py:90-99 | the stream becomes `AddFragment` of the old one |
| Api2Stream.Datastream2.Collapse | libmft/api2.py:110-127 | the pending items, the count and the run lists become those `CollapseOf` gives |
| Api2Stream.Datastream2.CollapseTurn | libmft/api2.py:116-127 | one turn of the `while` loop keeps its invariant |
| Api2Stream.Datastream2.SweepOnce | libmft/api2.py:117-127 | one pass and the deletion of the moved keys |
| Api2Stream.Datastream2.PassOver | libmft/api2.py:118-124 | the `for` loop moves the fragments `Pass` moves and gives their keys |
| Api2Stream.Datastream2.DeleteKeys | libmft/api2.py:126-127 | the `del` loop removes exactly the moved keys |
| Api2.DecodeContent2 | libmft/api2.py:168-199 | the content decoders are those of api.py except that EA information is read by `EaInformation.create_from_binary`, accepting exactly eight bytes or more, and volume information by `VolumeInformation.create_from_binary`, accepting exactly 12 bytes |
| Api2.EaRecordRefusedAsWritten | libmft/api2.py:186-187 | as written, every eight-byte EA information record is refused, while the intended decoder reads it back |
| Api2.DecodeContent2AsWrittenDiffers | libmft/api2.py:186-187 | the decoders as written differ only on EA information, where only a three-byte content is accepted |
| Api2.CreateAttribute2 | libmft/api2.py:163-201 | a header failure is reported; a created attribute has the decoded header and can be routed; a content is present only for a loaded resident type |
| Api2.CreateAttribute2Loaded | libmft/api2.py:168-199 | with its type loaded an attribute decodes as in api.py, except EA and volume information, which get the api2 decoders; with its type not loaded a resident attribute has no content |
| Api2.DecoderIsOk | libmft/api2.py:163-201 | the decoder refuses the empty view and what it gives can be routed |
| Api2.FindStream | libmft/api2.py:292-297 | the position found is the first stream of that name, and none means no stream has it |
| Api2.FindUnique | libmft/api2.py:292-297 | with unique names the stream of a name is found at its own position |
| Api2.StreamBefore | libmft/api2.py:288-301 | the stream a DATA attribute goes to is consistent and has its name |
| Api2.AddToStreamsOk | libmft/api2.py:288-301 | adding keeps the streams consistent, raises what the stream of the name raises, and otherwise leaves that stream as `AddData2` makes it |
| Api2.AddToNewStream | libmft/api2.py:298-301 | without a stream of the name, a new stream takes the attribute and is appended unless it raised |
| Api2.AddToStreamsNames | libmft/api2.py:288-301 | streams of other names keep their place and state |
| Api2.RouteOk | libmft/api2.py:306-319 | routing keeps the entry consistent, only DATA raises, DATA never enters `attrs`, and any other attribute joins the end of its type's list |
| Api2.StepAt | libmft/api2.py:362-367 | a step moves strictly forward inside the view and keeps the entry consistent |
| Api2.Walk | libmft/api2.py:356-367 | a finished walk leaves the entry consistent |
| Api2.CreateEntry | libmft/api2.py:238-286 | an entry starting with four zero bytes gives none; otherwise the header, length check, repair and walk decide the entry, as `Assemble` gives it |
| Api2.Assemble | libmft/api2.py:278-281 | the entry has its header and a consistent set of attributes, slack exactly when configured, and nothing loaded when attributes are not |
| Api2.FirstSizeIsFirstDecider | libmft/api2.py:408-415 | the first deciding attribute gives the size |
| Api2.FirstSizeWithoutDecider | libmft/api2.py:408-415 | without a deciding attribute the size is 0 |
| Api2.AsWrittenSeesNoData | libmft/api2.py:396-440 | on every entry `create_from_binary` gives, `get_data_size` as written returns 0 and `has_ads` False |
| Api2.DataSizeAfterData | libmft/api2.py:396-417 | once a DATA attribute is taken, the corrected size of its name is the content length or the VCN 0 stream size |
| Api2.HasAdsAfterData | libmft/api2.py:432-440 | once a DATA attribute is taken, the corrected `has_ads` holds exactly when it held before or the attribute is named; the as-written one stays false |
| Api2.GetItem2Resolves | libmft/api2.py:617-631 | the lookup refuses exactly the empty entries; any other entry is read through its base entry, which is not empty |
| Api2.MftEntry2.constructor | libmft/api2.py:223-236 | a new entry has its header, nothing loaded and no slack |
| Api2.MftEntry2.AddDatastream | libmft/api2.py:288-301 | the streams become `AddToStreams` of the old ones, with its error |
| Api2.MftEntry2.FeedStream | libmft/api2.py:292-296 | the stream of the attribute's name takes it |
| Api2.MftEntry2.AppendStream | libmft/api2.py:298-301 | a new stream takes the attribute and is kept unless it raised |
| Api2.MftEntry2.KeepStream | libmft/api2.py:301 | the stream object goes at the end of the streams |
| Api2.MftEntry2.AddAttribute | libmft/api2.py:306-319 | the entry becomes `Route` of its old contents, with its error |
| Api2.MftEntry2.LoadAttributes | libmft/api2.py:356-367 | the loop succeeds exactly when `Walk` does, leaving its contents |
| Api2.MftEntry2.LoadOne | libmft/api2.py:362-367 | one turn gives the next offset and contents of `StepAt` |
| Api2.MftEntry2.CreateFromBinary | libmft/api2.py:238-286 | the entry and its error are those of `CreateEntry` on the original bytes, and the buffer afterwards is the repaired one |
| Api2.MftEntry2.Build | libmft/api2.py:260-281 | the entry built succeeds exactly when `Assemble` does, with its contents and slack |
| Api2.MftEntry2.GetDataSize | libmft/api2.py:396-417 | the as-written loop returns `DataSizeAsWritten` of `attrs` |
| Api2.MftEntry2.HasAds | libmft/api2.py:432-440 | the as-written loop returns `HasAdsAsWritten` of `attrs` |

## Left out

- `convert_filetime` and the `datetime` values: timestamps stay raw 64-bit FILETIME numbers. The conversion (libmft/util/functions.py:21) raises OverflowError for a date past the end of year 9999, a FILETIME of about 0x24C85A5ED1C04000 or more (the exact bound depends on floating-point rounding of `filetime/10`); the model does not refuse those values, so the decoders below accept views the source refuses.
- AttrContent.DecodeTimestamps: accepts every 32-byte view, including those with a FILETIME that makes `convert_filetime` raise OverflowError at libmft/attrcontent.py:121-122.
- AttrContent.DecodeStandardInformation: accepts 48- and 72-byte views whose timestamps make `convert_filetime` raise OverflowError (libmft/attrcontent.py:213).
- AttrContent.DecodeStandardInformationIff: the views it states are accepted include those whose timestamps overflow `convert_filetime`, which the source refuses.
- UTF-16 and ASCII decoding of names and UUID objects: names and ids stay bytes, and the UnicodeDecodeError a decoding raises is not modelled, so the decoders below accept views the source refuses.
- AttrContent.DecodeFileName: the name is all of the content after byte 66, decoded as UTF-16LE at libmft/attrcontent.py:663; a name of an odd number of bytes (a 67-byte content) or with an unpaired surrogate raises there, and the model accepts it; so it does a content whose timestamps overflow `convert_filetime` (libmft/attrcontent.py:664).
- AttrContent.DecodeFileNameIff: states acceptance of every view that holds the fields, including the names the UTF-16LE decoding at libmft/attrcontent.py:663 refuses and the timestamps `convert_filetime` refuses.
- AttrLists.DecodeAttrListEntry: the UnicodeDecodeError of the attribute name at libmft/attrcontent.py:315 is not modelled.
- AttrLists.DecodeEaEntry: the UnicodeDecodeError of the ASCII name at libmft/attrcontent.py:1246 (a byte of 0x80 or more) is not modelled.
- IndexRoots.DecodeKey: a FILE_NAME key is read by the FILE_NAME decoder, so neither the decoding error of its name nor the OverflowError of its timestamps is modelled.
- Headers.DecodeAttributeHeaderIff: the UnicodeDecodeError of the attribute name at libmft/headers.py:306 is not modelled, so the acceptance it states includes names that do not decode.
- AttrContent.DecodeJunctionOrMount: the UnicodeDecodeError of the target and print names at libmft/attrcontent.py:1074 and 1076 is not modelled.
- AttrContent.DecodeReparsePoint: its failure condition leaves out the decoding errors of the junction names.
- Api2.DecodeContent2: a VOLUME_NAME content is kept as bytes; the UnicodeDecodeError of `VolumeName.create_from_binary` at libmft/attrcontent.py:493 is not modelled.
- The enum conversions of libmft.flagsandtypes (`AttrTypes(x)`, `MftUsageFlags(x)`, name and reparse types): values stay raw integers, and the ValueError for an unknown code is not modelled; libmft/flagsandtypes.py is not part of this model, so the type codes are those of the NTFS layout.
- libmft/attribute.py is not part of this model. api.py imports from it every content class it dispatches to, `ResidentAttrHeader`, `NonResidentAttrHeader` and `get_attr_info`; the model uses in their place the content decoders of libmft/attrcontent.py and the attribute header layout of libmft/headers.py, and `ApiAttribute.GetAttrInfo` reads the first fields of that layout.
- `load_dataruns` (`ApiConfig.MftConfig.loadDataruns`) is stored but never read: api.py passes it to `NonResidentAttrHeader.create_from_binary` of libmft/attribute.py, and the non-resident header of libmft/headers.py always decodes its data runs, so the model always does.
- File I/O: `get_file_size`, `_find_mft_size`, `seek`/`readinto`; the MFT is a given sequence of entry buffers and the entry size is theirs.
- `lru_cache`, logging and `print`; `parallel.py`, `data.py`, mftres and the scripts.
- The security descriptor family (`SecurityDescriptor`, `ACL`, `ACE`, `SID`), `VolumeName`, `VolumeInformation`, `EaInformation`, `LoggedToolStream` and `Data` of libmft/attribute.py: the api.py dispatcher keeps their bytes. api2.py decodes `VolumeInformation` and `EaInformation` with libmft/attrcontent.py (`Api2.DecodeContent2`) and keeps a volume name as its UTF-16LE bytes.
- `__len__`, `__repr__`, `__eq__`, `__iadd__` and `__iter__` of the content classes, except where a length drives a loop (attribute list, EA, index entries).
- `get_entry_full_path`, `copy_from_loaded_mft`, `get_attributes`, `get_datastream`, `get_datastream_names` of api.py.
- api2: `copy_attributes`, `get_attributes`, `get_datastream_names`, `get_names`, `is_deleted`, `is_directory`, `Datastream.__eq__`, and `data_streams = None` before creation.
- api2 calls `AttributeHeader.create_from_binary`, which libmft/headers.py does not define: the model uses the layout of `AttributeHeader.__init__`.
- Api2.CreateAttribute2: reads EA information with the intended decoder (see Findings). As written, api2.py hands the eight-byte record to the `EaInformation` constructor (`Api2.DecodeContent2AsWritten`), which raises, so with `load_ea_info` on, as it is by default, every entry with a resident EA_INFORMATION attribute is refused; `Api2.CreateEntry` and `Api2.MftEntry2.CreateFromBinary` read entries with the intended decoder.
- api2 `_read_full_entry` only prints the entry numbers: `Api2.GetItem2Resolves` states which entry numbers it goes through.
- api2 `_load_stub_info` maps the stubs as api.py does (`ApiMft.MapStubsOk`), without the counter of valid entries.
- `Fixup.ApplyFixupArray`: `fx_count == 0` loops forever in Python (empty slices compare equal); the model returns `NeverReturns` instead of not returning.
- Fixup.ApplyFixupArray: the buffer length must equal the entry size (the only caller checks it), and the properties of the repaired bytes are stated for entries whose fixup array does not overlap a visited tail.
- Fixup.FixupResult: stated only for fixup arrays that lie between two sector tails; an array overlapping a tail is repaired in the order of the loop, which the model computes but the lemma does not describe.
- ApiMft.Mft.GetItem: requires an index below the number of entries. Past the end, Python reads nothing into a zero-filled buffer and `create_from_binary` then raises HeaderError (or EntryError); the model does not cover that case, since the entries are a given sequence of buffers with no separate entry size.
- ApiEntry.MftEntry.CreateFromBinary: the entry number only feeds a log message and an exception attribute, so it is not checked against the header.
- Apart from the walk and the repair, the Python exceptions are error values; the partial state an exception leaves in an object (for instance the fields `add_data_attribute` set before raising) is modelled only in api2's `Datastream`.

## Findings

| source | as written | input that shows it | evidently intended | confidence | as-written member | corrected member |
|---|---|---|---|---|---|---|
| libmft/api.py:341-346 | `_get_content` calls `self.is_resident()`, but `is_resident` is a property, so the call is made on a bool and raises TypeError | any stream built from one resident DATA attribute | the content of a resident stream | not executed | ApiStream.ContentAsWritten | ApiStream.ContentOf |
| libmft/attrcontent.py:429 | the size sums 16 for every one of the four ids, because the filter tests `content is not None` | an OBJECT_ID content of 16 bytes: size 64 | 16 bytes per present id, the length of the content | not executed | AttrContent.ObjectIdSizeAsWritten | AttrContent.ObjectIdSize |
| libmft/api2.py:186-187 | EA_INFORMATION content is handed to the `EaInformation` constructor, whose tuple assignment raises ValueError unless the view has exactly three items | a resident EA_INFORMATION attribute with the eight-byte record NTFS stores (`Api2.EaRecordRefusedAsWritten`); with `load_ea_info` on by default the entry is refused | `EaInformation.create_from_binary`, which unpacks the eight-byte "<2HI" record | not executed | Api2.DecodeContent2AsWritten | Api2.DecodeContent2 |
| libmft/api2.py:396-417 | `get_data_size` reads `attrs[DATA]`, which `_add_attribute` never fills, so it is always 0 | any entry with a resident DATA attribute of non-zero length | the size of the stream of that name | not executed | Api2.MftEntry2.GetDataSize | Api2.DataSize |
| libmft/api2.py:432-440 | `has_ads` reads `attrs[DATA]` too, so it is always False | any entry with a named DATA attribute | whether some stream has a name | not executed | Api2.MftEntry2.HasAds | Api2.HasAds |
