# Verification of the mDNSResponder core

Models, in Dafny, of four parts of `mDNSResponder/mDNSCore`, with proofs of what they are for.

* **The wire codec of names.** Names are written with back-pointers found by a raw octet search of
  the packet and read through arbitrary pointers.  A message written that way reads back, and the
  project says exactly when not: when the search closes its match with the octet at its own limit,
  where the name is about to be written (`NameCodec`, `NameRoundTrip`, `NameReuse`, `Sections`).
  Octets filled in afterwards, as the lengths of record data, do no harm whatever they become if and
  only if no match that was used runs through them (`LengthsLater`, `NameHinges`).  Whole records
  written one after the other read back under these conditions (`Rdata`, `RdataCodec`, `Records`,
  `RecordRoundTrip`), in the formats of RFC 1035 (`WireFormat`), and two families of ordinary records
  show what is lost otherwise (`RecordsLost`).  Around it are the text form of names (`NameText`) and their comparison, order and
  hash (`DomainNames`, `CanonicalOrder`, `NameHash`).
* **The DNSSEC verifier.** Over every run of callbacks a Secure result means a chain of verified
  record sets from the set in question up to a trust anchor, and the climb ends because zones get
  shorter (`DnssecRecords`, `DnssecCache`, `DnssecChain`, `DnssecVerifier`).  Caches that have all
  that is needed give Secure, at the first callback or after questions that are answered one by one,
  and Bogus where a signature or the vouching for a key fails (`DnssecProgress`).  The top-down proof
  of insecurity delivers one result, never Secure (`InsecureProof`), and what is reported is reported only while the cache still holds what was
  validated (`ValidationCallback`).
* **Digests.** Streaming MD5 equals hashing the whole message, for every cutting into chunks
  (`Md5`); base64 decoding inverts the encoding and accepts nothing else (`Base64`); what is signed
  with TSIG is accepted when verified (`Tsig`).
* **Naming and randomness.** Renaming after a collision never comes back to a label
  (`LabelSuffix`), and the random sampler ends (`RandomSource`).

Buffers that the code writes are arrays, buffers it only reads are sequences of octets with
position arguments; the verifier, the callback that gets its result, the proof of insecurity, the
digest context, the record in memory and the random source are classes.  A name in memory is octets
of which a ghost argument says what they spell (`Holds`).  Each method is proved against a function,
and the lemmas are about these functions.
The modules stand in one file each; `dafny verify dfyconfig.toml` verifies them together.

Signature verification, the digests of DS records, the supported algorithms, the choice of a
resolver group and the MD5 block function are parameters: everything holds for any of them.  So do
the clock, the cache and the answers, which may be different at every callback.

Where the code and its comments differ, the code is modelled.  `subdomain` in the canonical order
is set without a common label when the second name is the root (mDNSResponder/mDNSCore/dnssec.c:155-156).
The lookup of DS records goes by owner name alone, so that a record of another class or resolver
group can vouch for a key although it is not in the set verified next: `DnssecChain.MissingExactly`
says exactly when, and `InvisibleDs` shows a run; a trust anchor longer than the name can be chosen
for the proof of insecurity (`LongAnchor`); a result with no cached record to answer is dropped
without a word and without giving the verifier back (`ValidationCallback`); an unsupported digest
type ends the walk over the DS records; a failing check clears the note that an answer was expanded
from a wildcard, and only then is a Secure result over one delivered without a proof (`slipped` in
`Verifier.Run`, and `LostNote` shows a run); and at the recursion limit no result is delivered.

## Model

| member | source | states |
|---|---|---|
| DomainNames.DomainNameLength | mDNSResponder/mDNSCore/DNSCommon.c:714-724 | the wire length, root octet counted, of a name with labels of at most 63 octets and at most 256 octets in all; 257 for every other name |
| DomainNames.CountLabels | mDNSResponder/mDNSCore/DNSCommon.c:750-756 | the number of labels of the name that stands at the position |
| DomainNames.SkipLeadingLabels | mDNSResponder/mDNSCore/DNSCommon.c:760-764 | the position of the name left when that many labels are skipped; the root once they are all gone; nothing is skipped for a count of zero or less |
| DomainNames.SameDomainLabel | mDNSResponder/mDNSCore/DNSCommon.c:625-643 | true exactly for labels of at most 63 octets that are equal but for ASCII case |
| DomainNames.SameDomainName | mDNSResponder/mDNSCore/DNSCommon.c:645-661 | the walk over two names in memory decides `Compares`, read label by label with the 256-octet limit counted along the first name |
| DomainNames.ComparesMeansSame | mDNSResponder/mDNSCore/DNSCommon.c:645-661 | that comparison holds if and only if the lower-cased names are equal and the first is the root or a valid name; a malformed first name equals nothing, not even itself |
| DomainNames.SameMeans | mDNSResponder/mDNSCore/DNSCommon.c:625-661 | lower-cased names are equal if and only if their labels have the same lengths and their octets are pairwise the same or the two cases of one letter from A to Z |
| DomainNames.HoldsUnique | mDNSResponder/mDNSCore/DNSCommon.c:645-661 | a position in memory spells one name only |
| NameCodec.MatchName | mDNSResponder/mDNSCore/DNSCommon.c:2119-2138 | the inner walk of the search, through labels and backward pointers, succeeds exactly where a match is defined to be |
| NameCodec.FindCompressionPointer | mDNSResponder/mDNSCore/DNSCommon.c:2104-2142 | the search over raw octets from the end backwards returns what `FindPointer` says, and null for the root |
| NameCodec.SearchFindsLast | mDNSResponder/mDNSCore/DNSCommon.c:2104-2142 | what the search returns is a match and there is none between it and the end; it returns null only if there is no match at all |
| NameCodec.PutDomainNameAsLabels | mDNSResponder/mDNSCore/DNSCommon.c:2152-2208 | either the name is written as `Encode` says, every other octet of the buffer keeping its value, or the result is null and nothing outside the room allowed is touched |
| NameCodec.GetDomainName | mDNSResponder/mDNSCore/DNSCommon.c:2743-2791 | comes to an end on every buffer, forward pointers included; null exactly if `ReadName` fails, otherwise the name stands in the 256-octet structure and the result is the position behind it |
| NameCodec.ReadIsValid | mDNSResponder/mDNSCore/DNSCommon.c:2743-2791 | a name that is read has labels of at most 63 octets and at most 256 octets in all |
| NameCodec.FewPointers | mDNSResponder/mDNSCore/DNSCommon.c:2743-2791 | reading one name follows at most 128 pointers |
| NameCodec.SkipDomainName | mDNSResponder/mDNSCore/DNSCommon.c:2714-2740 | the cheap walk decides `SkipName`, null for a position outside the message |
| NameCodec.SkipRefinesRead | mDNSResponder/mDNSCore/DNSCommon.c:2714-2791 | wherever reading a name succeeds, skipping it ends at the same position |
| NameCodec.SkipsLabels | mDNSResponder/mDNSCore/DNSCommon.c:2714-2740 | skipping passes any labels of at most 63 octets and ends behind the root octet or the pointer that follows them, unless they fill more than 255 octets or the message ends |
| WireFormat.PointerLayout | mDNSResponder/mDNSCore/DNSCommon.c:2186-2192 | a pointer to any position below 2^14 is the two octets of section 4.1.4 of RFC 1035, and leads back to it |
| NameRoundTrip.MatchReads | mDNSResponder/mDNSCore/DNSCommon.c:2119-2138 | a place the search matches is a place from which the reader reads exactly that name |
| NameRoundTrip.NameRoundTrip | mDNSResponder/mDNSCore/DNSCommon.c:2104-2208 | one valid name written at any position below 2^14 is read back with the writer's end position from every buffer that keeps the octets, if and only if the match used was not closed by the octet at the search limit |
| NameRoundTrip.OverreadExample | mDNSResponder/mDNSCore/DNSCommon.c:2119-2128 | that exception is real: behind the octets of an MX preference or SRV port of 353, and in front of a zero, the name "a" is written as a pointer that cannot be read |
| NameRoundTrip.NoOverread | mDNSResponder/mDNSCore/DNSCommon.c:2119-2128 | with a nonzero octet at the search limit before the write the exception does not arise |
| NameRoundTrip.MessageRoundTrip | mDNSResponder/mDNSCore/DNSCommon.c:2104-2208 | for any sequence of names and raw octets written back to back, every name reads back, with the position of the next item, from every buffer that keeps what was written, whatever follows it; if and only if no search on the way overread |
| NameRoundTrip.WritingGoesForward | mDNSResponder/mDNSCore/DNSCommon.c:2152-2208 | writing the items changes nothing in front of the first and stays below the limit |
| NameRoundTrip.NonzeroIsEnough | mDNSResponder/mDNSCore/DNSCommon.c:2119-2128 | no search overreads anywhere in a message that is written into a buffer without zero octets from its start to the limit |
| NameRoundTrip.NonzeroRoundTrip | mDNSResponder/mDNSCore/DNSCommon.c:2104-2208 | so every name of a message written into such a buffer reads back |
| LengthsLater.FilledInLater | mDNSResponder/mDNSCore/DNSCommon.c:2478-2490 | the same where octets, as the lengths of record data, are filled in only after names were written behind them: every name reads back unless one of these octets is a name's or a match that was used runs through it |
| LengthsLater.FilledInExactly | mDNSResponder/mDNSCore/DNSCommon.c:2478-2490 | and exactly then: the names of a message read back whatever is filled in at the given places if and only if none of these octets is a name's and no match that was used runs through one |
| NameHinges.ChangeShows | mDNSResponder/mDNSCore/DNSCommon.c:2743-2791 | each octet that reading a name hinges on has a value with which reading fails or yields another name, the second octet of a pointer included, since 256 equal lengths in a row overflow a name |
| LengthsLater.AvoidingMatchStays | mDNSResponder/mDNSCore/DNSCommon.c:2119-2138 | a match stays a match when octets it does not run through change |
| NameReuse.RewritingCostsTwoOctets | mDNSResponder/mDNSCore/DNSCommon.c:2104-2208 | once a non-root name has been written, it and each of its non-root suffixes is found by every later search, and writing it takes exactly two octets |
| NameReuse.CompressedDomainNameLength | mDNSResponder/mDNSCore/DNSCommon.c:734-746 | the estimate for a name with and without a parent, 257 for a malformed name |
| NameReuse.CompressedLengthOfChild | mDNSResponder/mDNSCore/DNSCommon.c:734-746 | for a child of a non-root parent the estimate is the octets in front of the parent plus two |
| NameReuse.UncompressedLength | mDNSResponder/mDNSCore/DNSCommon.c:734-746 | without a parent the estimate of a valid name is its wire length |
| NameReuse.EstimateIsEnough | mDNSResponder/mDNSCore/DNSCommon.c:734-746 | a child of a parent that is in the packet octet for octet is written in any room the estimate fits in and takes no more octets than the estimate |
| Sections.GetQuestion | mDNSResponder/mDNSCore/DNSCommon.c:3541-3555 | null exactly if name, type and class cannot be read; otherwise the name, its hash, type, class, interface and whether it is a unicast question, and the position behind them |
| WireFormat.QuestionLaidOut | mDNSResponder/mDNSCore/DNSCommon.c:3541-3555 | a question laid out octet by octet as section 4.1.2 of RFC 1035 says is read as that question, wherever it stands |
| Sections.SkipQuestion | mDNSResponder/mDNSCore/DNSCommon.c:3533-3539 | the end of the question by skipping |
| Sections.SkipResourceRecord | mDNSResponder/mDNSCore/DNSCommon.c:2793-2806 | the end of the record by skipping name, fixed part and rdata |
| Sections.LocateAnswers | mDNSResponder/mDNSCore/DNSCommon.c:3557-3563 | the position the question skips lead to, null if one of them fails |
| Sections.LocateAuthorities | mDNSResponder/mDNSCore/DNSCommon.c:3565-3571 | likewise over questions and answers |
| Sections.LocateAdditionals | mDNSResponder/mDNSCore/DNSCommon.c:3573-3579 | likewise over questions, answers and authorities, a null being handed on |
| Sections.QuestionEndRefines | mDNSResponder/mDNSCore/DNSCommon.c:3533-3555 | a question that can be parsed is skipped to the same position |
| Sections.RecordEndRefines | mDNSResponder/mDNSCore/DNSCommon.c:2793-2806 | a record that can be parsed is skipped to the same position |
| Sections.LocateLandsWhereParsingDoes | mDNSResponder/mDNSCore/DNSCommon.c:3557-3579 | whenever every question and record in front of a section can be parsed in full, the Locate routines land where the parsing lands, for any counts |
| Records.PutResourceRecord | mDNSResponder/mDNSCore/DNSCommon.c:2441-2495 | the record is in the message with the number of octets its data took filled in as its length, names compressed, SRV data of an update excepted, and the result is the position behind it; or the result is null and nothing outside the room is touched |
| Records.GetLargeResourceRecord | mDNSResponder/mDNSCore/DNSCommon.c:3440-3531 | null exactly if name, fixed part or length do not fit; otherwise name, type, class, the limited time to live and the data, or that there is none or none that can be parsed, and the position behind the record |
| WireFormat.RecordLaidOut | mDNSResponder/mDNSCore/DNSCommon.c:3440-3531 | a record laid out as section 4.1.3 of RFC 1035 says, cache flush bit set or not, is read with that owner, type, class and time to live, and its data found where it stands |
| WireFormat.FixedLaidOut | mDNSResponder/mDNSCore/DNSCommon.c:2468-2476 | and type, class and time to live are written that way |
| WireFormat.DataLaidOut | mDNSResponder/mDNSCore/DNSCommon.c:2229-2437 | at which octet of the data each of its fields stands, in every layout |
| Records.TimeToLiveRead | mDNSResponder/mDNSCore/DNSCommon.c:3480-3481 | the time to live is the one in the message if it fits the clock or is all ones, and otherwise the largest that fits |
| Records.LongDataUnread | mDNSResponder/mDNSCore/DNSCommon.c:3498-3504 | data of more than 8192 octets is not taken over |
| RecordRoundTrip.RecordReadsBack | mDNSResponder/mDNSCore/DNSCommon.c:2441-3531 | a valid record written with its names compressed is read back whole, data and all, from every message that keeps it, unless a match that was used runs through an octet that changed since: one filled in later, or one its own length changed; a record whose time to live fits the clock with its own time to live |
| RecordRoundTrip.RecordsReadBack | mDNSResponder/mDNSCore/DNSCommon.c:2441-3531 | the same for any number of records written one after the other, the counts in the header and what is behind the records changing in between: reading yields the records in order, each with its own owner, type, class, time to live and data, and ends where writing ended |
| RecordRoundTrip.BodyReadsBack | mDNSResponder/mDNSCore/DNSCommon.c:2848-3435 | data of every layout whose names read back and whose fixed octets stand is read back as the same data |
| RecordsLost.LostToLength | mDNSResponder/mDNSCore/DNSCommon.c:2478-2490 | the exception for lengths is real: every record whose data is a name of one label of one octet, whose time to live ends in the octet 1 and which is written where that octet and a zero stood in the place of the length, loses its data |
| RecordsLost.LostToLimit | mDNSResponder/mDNSCore/DNSCommon.c:2119-2128 | and so is the one for the search limit: every record with a preference of 256 + c and the name of the one octet c loses its data when there is a zero where the name goes |
| RecordsLost.LengthExample | mDNSResponder/mDNSCore/DNSCommon.c:2441-3531 | such a record: PTR "a", one second, in a buffer of zeros but for one octet, is read without its data |
| RecordsLost.LimitExample | mDNSResponder/mDNSCore/DNSCommon.c:2441-3531 | and another: MX 353 "a" in a buffer of zeros |
| NameText.ConvertDomainName | mDNSResponder/mDNSCore/DNSCommon.c:926-944 | for any escape character, or none: null exactly for a malformed name; otherwise the text and a closing NUL stand in the buffer and the result is the position behind it, no write passing 1009 octets |
| NameText.ConvertDomainLabel | mDNSResponder/mDNSCore/DNSCommon.c:898-923 | null, nothing being written, for a label of more than 63 octets; otherwise its text, escaped if an escape character is given, and a NUL, in at most four octets for each of its own |
| NameText.TextFits | mDNSResponder/mDNSCore/DNSCommon.c:925-944 | the text of a valid name with its NUL fits into 1009 octets, whatever the escape character |
| NameText.TextBoundTight | mDNSResponder/mDNSCore/DNSCommon.c:925-944 | and there is a valid name that needs all of them |
| NameText.AppendDNSNameString | mDNSResponder/mDNSCore/DNSCommon.c:795-831 | the parsed labels are appended to the name in place, nothing in front of them changing; null exactly if `NameScan` fails |
| NameText.MakeDomainNameFromDNSNameString | mDNSResponder/mDNSCore/DNSCommon.c:892-896 | a fresh name from a text; the result is the number of octets written |
| NameText.TextRoundTrip | mDNSResponder/mDNSCore/DNSCommon.c:795-831 | the text of a valid name, whatever octets its labels hold, is parsed back to the same octets, with the single exception of the root, whose text is rejected |
| NameText.TextsDiffer | mDNSResponder/mDNSCore/DNSCommon.c:926-944 | different valid names have different texts |
| NameText.TextHasNoNul | mDNSResponder/mDNSCore/DNSCommon.c:898-944 | no text has a NUL in it, nor a blank or any other octet up to 32 |
| NameText.PlainLabelText | mDNSResponder/mDNSCore/DNSCommon.c:898-923 | octets above 32 other than dot and escape character are written as they are, and all are without an escape character |
| NameText.EscapesMean | mDNSResponder/mDNSCore/DNSCommon.c:803-820 | a backslash and three digits are read as the octet they number, if there is one; a backslash and another character as that character |
| NameText.ParseIsValid | mDNSResponder/mDNSCore/DNSCommon.c:795-831 | whatever the text, what is written starts with a valid name, and more stands behind it only if the text ends in a backslash |
| NameText.LoneBackslash | mDNSResponder/mDNSCore/DNSCommon.c:795-831 | a text that is one backslash is taken for a name, and the position returned is not the one behind it |
| NameHash.DNSNameToLowerCase | mDNSResponder/mDNSCore/DNSCommon.c:1140-1166 | fails exactly for names of more than 256 octets; otherwise the lower-cased name is in the buffer |
| NameHash.SameIsLoweredEqual | mDNSResponder/mDNSCore/DNSCommon.c:645-661 | names compare equal if and only if their lower-cased forms are the same octets |
| NameHash.DomainNameHashValue | mDNSResponder/mDNSCore/DNSCommon.c:2684-2697 | the loop over octet pairs, which reads no octet behind the name, computes the hash of the name's wire form |
| NameHash.SameNamesSameHash | mDNSResponder/mDNSCore/DNSCommon.c:2684-2697 | names that compare equal have equal hashes |
| NameHash.KnownHash | mDNSResponder/mDNSCore/DNSCommon.c:2684-2697 | the hash of "aBc.De", octet pair by octet pair |
| NameHash.RotationIs | mDNSResponder/mDNSCore/DNSCommon.c:2684-2697 | the rotation moves the top three bits to the bottom, so no two sums become one |
| Rdata.GetRDLength | mDNSResponder/mDNSCore/DNSCommon.c:1977-2035 | without estimate: the stored length for class ANY; otherwise the number of octets the data has with its names written out, if and only if HINFO data, which is believed what it says of itself, says so |
| RdataCodec.PutRData | mDNSResponder/mDNSCore/DNSCommon.c:2229-2437 | in both modes: with a message to compress into, the names and octets of the data are written as they would be one by one; without, the data's octets stand in the buffer exactly if all names are valid, the length is the type's and there is room; otherwise null and nothing outside the room is touched |
| RdataCodec.ExactRoom | mDNSResponder/mDNSCore/DNSCommon.c:2281-2286 | a buffer of exactly the record's length is enough for every layout but PX between two root names |
| RdataCodec.SetRData | mDNSResponder/mDNSCore/DNSCommon.c:2848-3435 | out of a message the data is what reading its names and octets up to its end gives, or refused; without a message, data whose names were validated before is taken if and only if it ends where it should, and then is the body whose octets were written |
| RdataCodec.AllocateRRVerifier | mDNSResponder/mDNSCore/dnssec.c:512-546 | the verifier's copy in network order: exactly the octets of the data, or nothing for an invalid name or the PX case |
| Rdata.RDataHashValue | mDNSResponder/mDNSCore/DNSCommon.c:1492-1558 | the hash of a body, over all layouts |
| Rdata.SameBodySameHash | mDNSResponder/mDNSCore/DNSCommon.c:1562-1625 | bodies that compare equal have equal hashes, over all layouts |
| Rdata.SameBodyExactly | mDNSResponder/mDNSCore/DNSCommon.c:1562-1625 | bodies compare equal if and only if their names are valid and they are of one layout and equal once the names are lower-cased, every number and octet being the same |
| Rdata.KnownDataHash | mDNSResponder/mDNSCore/DNSCommon.c:1542-1557 | the hash of data that is octets: by pairs as they are, and a last single one |
| RdataCodec.ThroughVerifier | mDNSResponder/mDNSCore/dnssec.c:512-546 | the way of a validated record in one statement: its length, its octets for the signature, and back for the comparison with the cached record, which finds it unchanged; nothing but PX between two roots is lost |
| Rdata.ResourceRecord.SetNewRData | mDNSResponder/mDNSCore/DNSCommon.c:2699-2712 | whether the hash is taken of the name the record points to or of the data, it is that of the data, and the length is that of the octets or, for class ANY, the stored one |
| Rdata.SameAsItself | mDNSResponder/mDNSCore/DNSCommon.c:1562-1625 | a body compares equal to itself if and only if its names are valid, so that what is read back from the verifier's copy is accepted |
| Rdata.PreChecksNeverMiss | mDNSResponder/mDNSCore/DNSCommon.h:146-153 | leaving the two hash comparisons out of the record comparison would never change its result |
| CanonicalOrder.DNSSECCanonicalOrder | mDNSResponder/mDNSCore/dnssec.c:159-226 | the label by label comparison from the right decides `NameOrder`, and `subdomain` is set exactly if the second name is a proper suffix of the first, the root included |
| CanonicalOrder.CompareLabels | mDNSResponder/mDNSCore/dnssec.c:180-209 | letters first, then lengths, decides the lexicographic order of the lower-cased labels |
| CanonicalOrder.OrderIsCanonical | mDNSResponder/mDNSCore/dnssec.c:159-226 | the result is negative if and only if, some number of last labels being equal, the first name ends there or has the smaller label there, which is the order of section 6.1 of RFC 4034 |
| CanonicalOrder.OrderOpposite | mDNSResponder/mDNSCore/dnssec.c:159-226 | the result is the opposite of that with the names exchanged, and zero if and only if the names compare equal |
| CanonicalOrder.OrderTransitive | mDNSResponder/mDNSCore/dnssec.c:159-226 | the order is transitive |
| LabelSuffix.TruncateUTF8ToLength | mDNSResponder/mDNSCore/DNSCommon.c:1234-1255 | walks back to a legal chop point, then over trailing blanks |
| LabelSuffix.TruncatedIsWhole | mDNSResponder/mDNSCore/DNSCommon.c:1234-1255 | for valid UTF-8 the result is the longest prefix of whole characters that fits, less its trailing blanks, and valid |
| LabelSuffix.CutExactly | mDNSResponder/mDNSCore/DNSCommon.c:1234-1255 | for any octets at all the chop is at the last place that is neither in front of a continuation octet nor between the halves of a surrogate pair |
| LabelSuffix.CharacterIsText | mDNSResponder/mDNSCore/DNSCommon.c:1234-1255 | what counts as whole characters there: the encoding of every character of RFC 3629, and of no surrogate |
| LabelSuffix.LabelContainsSuffix | mDNSResponder/mDNSCore/DNSCommon.c:1260-1281 | decides whether the label ends in a suffix as the code understands it |
| LabelSuffix.ContainsExactly | mDNSResponder/mDNSCore/DNSCommon.c:1260-1281 | which are these: blank and digits in brackets at the end; or a dash and digits at the end, of which there is only one if nothing stands in front |
| LabelSuffix.RemoveLabelSuffix | mDNSResponder/mDNSCore/DNSCommon.c:1286-1308 | only the length octet changes; the number is that of the digits taken off, in 32 bits |
| LabelSuffix.AppendLabelSuffix | mDNSResponder/mDNSCore/DNSCommon.c:1312-1335 | for every 32-bit number: what is left of the label, followed by the suffix, in at most 63 octets |
| LabelSuffix.SuffixReadsBack | mDNSResponder/mDNSCore/DNSCommon.c:1286-1335 | taking the suffix off again gives exactly the number and what carried it, for every label and every 32-bit number |
| LabelSuffix.SuffixIsRecognised | mDNSResponder/mDNSCore/DNSCommon.c:1260-1335 | an appended suffix is recognised if and only if it is in rich text form, or something is left in front of it, or the number has one digit |
| LabelSuffix.RecognisedIfKept | mDNSResponder/mDNSCore/DNSCommon.c:1260-1335 | every 32-bit number is recognised once appended, if and only if the label is rich text or truncation to 52 octets leaves something of it |
| LabelSuffix.AppendedIsWhole | mDNSResponder/mDNSCore/DNSCommon.c:1312-1335 | a valid UTF-8 label stays valid |
| LabelSuffix.IncrementLabelSuffix | mDNSResponder/mDNSCore/DNSCommon.c:1337-1353 | the label is replaced by the one with the next number: 2, one more below 10, a random amount more from then on |
| LabelSuffix.FirstRenaming | mDNSResponder/mDNSCore/DNSCommon.c:1337-1353 | a label without a number becomes itself with " (2)" or "-2" behind it, octet for octet, cut back only if it is too long |
| LabelSuffix.NextRenaming | mDNSResponder/mDNSCore/DNSCommon.c:1337-1353 | the numbers 1 to 9 are replaced by 2 to 10 behind the same stem |
| LabelSuffix.LaterRenaming | mDNSResponder/mDNSCore/DNSCommon.c:1337-1353 | from 10 on the number grows by one and the random number |
| LabelSuffix.RenamedCarriesNext | mDNSResponder/mDNSCore/DNSCommon.c:1337-1353 | the new label carries the next number on the same stem, cut back; or, exactly if a host name was cut back to nothing and the number has two digits or more, its own suffix goes unseen and becomes the stem |
| LabelSuffix.NumbersGrow | mDNSResponder/mDNSCore/DNSCommon.c:1337-1353 | over a run of renamings the number grows by at least one each time, as long as the suffixes are recognised and the numbers stay within 32 bits |
| LabelSuffix.StemStays | mDNSResponder/mDNSCore/DNSCommon.c:1337-1353 | a host name whose stem has 1 to 52 octets keeps that stem for ever, every suffix being recognised |
| LabelSuffix.NeverRevisited | mDNSResponder/mDNSCore/DNSCommon.c:1337-1353 | so no label of a run occurs twice before the numbers reach the end of 32 bits, whatever label it begins with, valid UTF-8 or not, empty or cut back to nothing |
| RandomSource.EveryValueOnce | mDNSResponder/mDNSCore/DNSCommon.c:559-562 | among any 2^k successive draws the low k bits take every value exactly once, for k up to 32 |
| RandomSource.FirstDraws | mDNSResponder/mDNSCore/DNSCommon.c:559-562 | the first draws from 0 are 1, 22, 463 and 9724 |
| RandomSource.Jump | mDNSResponder/mDNSCore/DNSCommon.c:559-562 | 2^k steps of the generator are one multiplication and addition |
| RandomSource.ReachesOnce | mDNSResponder/mDNSCore/DNSCommon.c:559-562 | no value of the low k bits comes twice within 2^k draws |
| RandomSource.MaskFor | mDNSResponder/mDNSCore/DNSCommon.c:582-587 | the mask is the least 2^k - 1, k at least 1, that is no smaller than the bound |
| RandomSource.Source.Random | mDNSResponder/mDNSCore/DNSCommon.c:582-593 | ends within mask + 1 draws for every seed and bound, with the first draw whose low bits are within the bound |
| RandomSource.Source.constructor | mDNSResponder/mDNSCore/DNSCommon.c:569-577 | the seed after mixing is that of 100 draws |
| Md5.HostPc2l | mDNSResponder/mDNSCore/DNSDigest.c:609-615 | a word begun is completed with the least significant octet first |
| Md5.HostPc2lp | mDNSResponder/mDNSCore/DNSDigest.c:616-623 | octets that do not complete a word are added to it, the others of its octets staying zero |
| Md5.HostC2lp | mDNSResponder/mDNSCore/DNSDigest.c:625-631 | the start of a word, its unused octets zero |
| Md5.FillBlock | mDNSResponder/mDNSCore/DNSDigest.c:660-677 | pending and new octets make the words of a whole block |
| Md5.AddToBlock | mDNSResponder/mDNSCore/DNSDigest.c:679-706 | new octets that do not complete the block are packed behind the pending ones, across a word boundary or not |
| Md5.CountOctets | mDNSResponder/mDNSCore/DNSDigest.c:650-658 | the two-word counter with its overflow test is eight times the number of octets modulo 2^64 |
| Md5.PadAbsorbed | mDNSResponder/mDNSCore/DNSDigest.c:781-843 | the one or two last blocks are those of the padded message of sections 3.1 and 3.2 of RFC 1321 |
| Md5.PadIs | mDNSResponder/mDNSCore/DNSDigest.c:781-843 | that padding octet by octet: the message, 128, zeros, and the number of its bits in eight octets, up to the first multiple of 64 |
| Md5.PadTells | mDNSResponder/mDNSCore/DNSDigest.c:781-843 | different messages, of whatever lengths, are padded differently |
| Md5.OutputInOrder | mDNSResponder/mDNSCore/DNSDigest.c:249-255 | read as words, least significant octet first, the digest is the four chaining variables in order |
| Md5.InitialOctets | mDNSResponder/mDNSCore/DNSDigest.c:918-928 | the initial values are the octets section 3.3 of RFC 1321 lists |
| Md5.Context.constructor | mDNSResponder/mDNSCore/DNSDigest.c:918-928 | a fresh context has digested nothing |
| Md5.Context.Init | mDNSResponder/mDNSCore/DNSDigest.c:918-928 | a context used before has digested nothing again, whatever its block still holds |
| Md5.Context.Update | mDNSResponder/mDNSCore/DNSDigest.c:644-758 | after it the context stands for the octets digested so far followed by the new ones, for every length of either |
| Md5.Context.Final | mDNSResponder/mDNSCore/DNSDigest.c:781-843 | the digest of everything passed to the updates |
| Md5.DigestChunks | mDNSResponder/mDNSCore/DNSDigest.c:644-843 | for every sequence of chunks the result is the digest of their concatenation in one piece |
| Base64.Base64ToBin | mDNSResponder/mDNSCore/DNSDigest.c:1151-1256 | the decoder with its four states stores the decoded octets and returns their number, or returns -1 |
| Base64.DecodesExactly | mDNSResponder/mDNSCore/DNSDigest.c:1151-1256 | a text is decoded to given octets if and only if it is their encoding of section 4 of RFC 4648 with whitespace anywhere, and the target has one octet to spare when the last group is not complete |
| Base64.NoOtherText | mDNSResponder/mDNSCore/DNSDigest.c:1151-1256 | texts decoded to the same octets differ in whitespace only |
| Base64.EncodeDecodes | mDNSResponder/mDNSCore/DNSDigest.c:1151-1256 | every encoding is decoded to the octets encoded |
| Base64.DecodedIsEncoding | mDNSResponder/mDNSCore/DNSDigest.c:1216-1253 | a text that is accepted is the encoding of what it is decoded to; leftover bits have to be zero |
| Base64.Vectors | mDNSResponder/mDNSCore/DNSDigest.c:1151-1256 | the encoding has the test vectors of section 10 of RFC 4648 |
| Base64.RestIs | mDNSResponder/mDNSCore/DNSDigest.c:1160-1161 | exactly the octets 9 to 13 and 32 are left out, the others keeping their order |
| Tsig.ConstructHmacKey | mDNSResponder/mDNSCore/DNSDigest.c:1281-1310 | the two pads are those of section 2 of RFC 2104, for keys shorter and longer than a block |
| Tsig.KeysAlike | mDNSResponder/mDNSCore/DNSDigest.c:1281-1310 | a key longer than 64 octets is as good as its digest, and zeros behind a shorter one change nothing, as section 2 of RFC 2104 has it |
| Tsig.EmptyKey | mDNSResponder/mDNSCore/DNSDigest.c:1281-1310 | the HMAC under the empty key, its pads being 64 octets 0x36 and 0x5c |
| Tsig.ConstructHmacKeyFromBase64 | mDNSResponder/mDNSCore/DNSDigest.c:1312-1319 | the pads of the key whose encoding the text is, and its length; -1, and nothing changed, if there is none that fits |
| Tsig.SignMessage | mDNSResponder/mDNSCore/DNSDigest.c:1321-1419 | the record has the HMAC over message and TSIG variables of section 3.4.2 of RFC 2845, and its fields in order |
| Tsig.VerifyMessage | mDNSResponder/mDNSCore/DNSDigest.c:1421-1561 | the verdict: algorithm first, then time, then MAC over what the record has, its time to live included, each with its error code |
| Tsig.SignThenVerify | mDNSResponder/mDNSCore/DNSDigest.c:1321-1561 | a message signed with any error code, the message itself or the time to live of its record changed on the way or not, is accepted if and only if the clocks differ by at most 300 seconds and the MAC equals that over what has arrived and error code zero; otherwise with the error code for the first that fails; if it is accepted although the message, the time to live or the error code is another, two different texts have the same HMAC |
| Tsig.SignedTextTells | mDNSResponder/mDNSCore/DNSDigest.c:1337-1380 | the text that is signed tells the message, class, time to live, time, fudge and error code: equal texts have each of them equal |
| Tsig.SignedOctets | mDNSResponder/mDNSCore/DNSDigest.c:1337-1380 | that text octet by octet, for an update: section 3.4.2 of RFC 2845 |
| Tsig.HmacCovers | mDNSResponder/mDNSCore/DNSDigest.c:1281-1310 | different texts have the same HMAC under a key only if different octets have the same digest |
| Tsig.HmacTellsKey | mDNSResponder/mDNSCore/DNSDigest.c:1281-1310 | and so have different keys of one length up to 64 |
| Tsig.JudgedExactly | mDNSResponder/mDNSCore/DNSDigest.c:1421-1561 | each verdict if and only if: BADKEY for an algorithm other than hmac-md5.sig-alg.reg.int, BADTIME for clocks further apart than the record allows, BADSIG for a MAC that is not that of the text, otherwise accepted |
| Tsig.SignedIsAccepted | mDNSResponder/mDNSCore/DNSDigest.c:1321-1561 | with error code zero and the time to live as it was: accepted if and only if the clocks, both below 2^31, differ by at most 300 seconds, for every key and message |
| Tsig.RdataFields | mDNSResponder/mDNSCore/DNSDigest.c:1380-1500 | the verifier finds each field where the signer put it |
| DnssecRecords.SignerNoLonger | mDNSResponder/mDNSCore/dnssec.c:591-706 | an accepted signature comes from a zone with no more labels than the owner, and with fewer for a DS record |
| DnssecRecords.CoversExactly | mDNSResponder/mDNSCore/dnssec.c:591-706 | which signatures are acceptable for a set: all that section 5.3.1 of RFC 4035 demands of owner, class, type, labels and signer, and nothing else |
| DnssecRecords.SerialOrder | mDNSResponder/mDNSCore/dnssec.h:133-134 | the comparison of times: the order of RFC 1982, with two numbers 2^31 apart each less than the other |
| DnssecRecords.WindowIsInterval | mDNSResponder/mDNSCore/dnssec.c:688-698 | so within 2^31 seconds a signature or an anchor is in its window exactly from the one time to the other |
| DnssecRecords.TagOfPair | mDNSResponder/mDNSCore/dnssec.c:112-129 | the key tag: octets in even places of the key count 256 times, the others once |
| DnssecRecords.TagFolds | mDNSResponder/mDNSCore/dnssec.c:112-129 | and what goes over 16 bits is added at the bottom |
| DnssecCache.SigsForHas | mDNSResponder/mDNSCore/dnssec.c:708-781 | collected for a set are exactly the signatures among the cached records of its owner that cover it and are in their window |
| DnssecCache.KeysForHas | mDNSResponder/mDNSCore/dnssec.c:808-869 | and exactly the cached keys of the signer |
| DnssecCache.DsForHas | mDNSResponder/mDNSCore/dnssec.c:1011-1072 | and exactly the cached DS records of the signer with the tag and the algorithm of a collected key |
| DnssecCache.FirstNegativeIs | mDNSResponder/mDNSCore/dnssec.c:708-781 | the negative record noted is the first one of the name and type, if there is one |
| DnssecCache.SigsDueIs | mDNSResponder/mDNSCore/dnssec.c:733-746 | missing signatures are an error exactly if the last cached record of the owner and type was asked for with DO set |
| DnssecChain.VerifiedMeans | mDNSResponder/mDNSCore/dnssec.c:591-706 | what being verified means for an element of a Secure chain: all that section 5.3 of RFC 4035 demands of owner, class, type, labels, signer, key, tag, algorithm and flag, and the check of the signature |
| DnssecChain.VouchedMeans | mDNSResponder/mDNSCore/dnssec.c:2145-2217 | and being vouched for: a DS record of the signer with digest type 1 or 2 is the digest of a key of its key set that signed the key set |
| DnssecChain.AnchoredMeans | mDNSResponder/mDNSCore/dnssec.c:3227-3318 | and being anchored: so is an anchor of the zone of the key, the clock being within its interval |
| DnssecChain.SignersClimb | mDNSResponder/mDNSCore/dnssec.c:2521-2595 | in every linked chain each element is signed by a zone with strictly fewer labels than the one before |
| DnssecChain.ChainBounded | mDNSResponder/mDNSCore/dnssec.c:2521-2595 | a linked chain has at most one element more than the name in question has labels, MAX_RECURSE_COUNT playing no part |
| DnssecChain.MissingExactly | mDNSResponder/mDNSCore/dnssec.c:1011-1072 | the DS record a key set was validated over is missing from the set verified next if and only if the first record of the walk that signs is one no question for its owner is answered with, by its class or resolver group; if it is not, the link is strong: a DS record of the next set hashes a key that signed the key set |
| DnssecChain.SecureIsStrong | mDNSResponder/mDNSCore/dnssec.c:2521-2595 | if every DS record in the caches of a run is one its question would be answered with, then at every step of a Secure chain the DS record gone over is in the next set, and hashes a key that signed the key set with a signature from the cache, in its window |
| InvisibleDs.SecureOverInvisible | mDNSResponder/mDNSCore/dnssec.c:1011-1072 | a concrete cache and one callback after which Secure is delivered although no DS record of the second set hashes any key |
| InvisibleDs.NotStrong | mDNSResponder/mDNSCore/dnssec.c:1011-1072 | whatever Secure chain there is for that cache, its first link is not strong |
| DnssecVerifier.Verifier.CheckRrsigForRrset | mDNSResponder/mDNSCore/dnssec.c:708-781 | the signatures collected for the set, the first negative record, and the error for each combination |
| DnssecVerifier.Verifier.CheckKeyForRrsig | mDNSResponder/mDNSCore/dnssec.c:808-869 | the keys collected for the signer, and the error |
| DnssecVerifier.Verifier.CheckRrsigForKey | mDNSResponder/mDNSCore/dnssec.c:888-967 | the signatures collected for the keys, and the error |
| DnssecVerifier.Verifier.CheckOneDsForKey | mDNSResponder/mDNSCore/dnssec.c:969-1009 | the DS record once for every key with its tag and algorithm |
| DnssecVerifier.Verifier.CheckDsForKey | mDNSResponder/mDNSCore/dnssec.c:1011-1072 | the DS records collected for the keys, and the error |
| DnssecVerifier.Verifier.ValidateSignatureWithKey | mDNSResponder/mDNSCore/dnssec.c:1885-2060 | whether the signature checks; and the note that the answer was expanded from a wildcard: set by an expanded answer that checks, cleared by any check that fails, untouched where the algorithm is not supported |
| DnssecVerifier.Verifier.ValidateSignature | mDNSResponder/mDNSCore/dnssec.c:2063-2121 | a matching pair of key and signature that verifies the set, and null only if there is none |
| DnssecVerifier.Verifier.ValidateDs | mDNSResponder/mDNSCore/dnssec.c:2145-2217 | the first DS record hashing a key that signed the key set, none before it having an unsupported digest, and null only if there is none |
| DnssecVerifier.Verifier.TrustedKeyPresent | mDNSResponder/mDNSCore/dnssec.c:3185-3225 | whether some anchor has the zone and tag of some key, its validity aside |
| DnssecVerifier.Verifier.TrustedKey | mDNSResponder/mDNSCore/dnssec.c:3227-3318 | a currently valid anchor hashing a key that signed the key set, and null only if there is none |
| DnssecVerifier.Verifier.GetAllRRSetsForVerification | mDNSResponder/mDNSCore/dnssec.c:1075-1244 | phase by phase; true only with the phase done and set, signatures and keys at hand, and always if the cache has them all; otherwise a question is out, a proof begun or a result delivered |
| DnssecVerifier.Verifier.AuthChainAdd | mDNSResponder/mDNSCore/dnssec.c:2273-2317 | set, signature and key are appended to the chain, and signature and key unlinked from their lists |
| DnssecVerifier.Verifier.Finish | mDNSResponder/mDNSCore/dnssec.c:2521-2595 | entered only with the phase done and nothing missing; the chain and its links only grow and the recursion ends because the labels of the set at hand decrease; the result is Secure if the cache, together with what was collected before, leads on to an anchor, and Bogus if no signature verifies the set or neither an anchor nor a DS record vouches for the keys |
| DnssecVerifier.Verifier.FinishSigned | mDNSResponder/mDNSCore/dnssec.c:2545-2587 | with the set verified: Secure under an anchor valid now; otherwise one step up if a DS record of the walk is the first to sign, and Bogus if there is none |
| DnssecVerifier.Verifier.VerifySignature | mDNSResponder/mDNSCore/dnssec.c:3083-3183 | on the way up the set that answers the DS question in the cache of the moment is the next to be verified; the result is Secure if it leads on to an anchor; Bogus if it is empty, its first denial has no proof, or it is all there and unverified or unvouched for; nothing but Secure and Bogus is ever delivered |
| DnssecVerifier.Verifier.Answer | mDNSResponder/mDNSCore/dnssec.c:3343-3582 | every answer, late, negative or of another type, keeps the invariant; no answer, a denial without proof, and records that are neither there nor denied after their question, or both, give Bogus; a positive answer that was awaited goes on to Secure, in each phase, if what was collected before and what this cache holds lead on to an anchor, and to Bogus, when everything is there, if the set is unverified or its keys are unvouched for; a Secure result is anchored at its own clock |
| DnssecVerifier.Verifier.Begin | mDNSResponder/mDNSCore/dnssec.c:3083-3183 | the set in question is what answers the question in the cache at that time; it is dispatched if there is such a set and nothing negative |
| DnssecVerifier.Verifier.Run | mDNSResponder/mDNSCore/dnssec.c:2521-2595 | over every sequence of callbacks, cache and clock changing between them: at most one result, and it is Secure or Bogus; Secure only if the chain starts with the set in question, is linked element by element over DS records and signatures out of the caches of callbacks, each signature in its window at one of them, and ends at an anchor valid at the clock of the callback that delivered it; a chain bounded by the labels of the name; Secure whenever the first callback finds all that is needed up to an anchor, and Bogus whenever it finds everything and no signature verifies the set, or neither an anchor valid then nor a DS record vouches for the keys; the chain of a Secure result has an answer expanded from a wildcard only if some check failed after that was noted; and no question stays open that goes unanswered |
| LostNote.SecureOverExpanded | mDNSResponder/mDNSCore/dnssec.c:2049-2057 | a concrete cache and one callback after which Secure is delivered over an answer expanded from a wildcard, with no proof that nothing closer exists: of two signatures over the key set the first fails |
| DnssecVerifier.Verifier.Resolve | mDNSResponder/mDNSCore/dnssec.c:3343-3582 | against a resolver whose answers are all positive and whose caches hold sets whole: if the last cache reaches an anchor from the set in question, the result is Secure, after at most four questions for each link, whichever records were cached before |
| InsecureProof.CountLabelsMatch | mDNSResponder/mDNSCore/nsec.c:287-317 | the number of labels equal from the right |
| InsecureProof.FindTrustAnchor | mDNSResponder/mDNSCore/dnssec.c:3584-3631 | the valid anchor with the most labels matching, or else a root anchor |
| InsecureProof.ChosenIsBest | mDNSResponder/mDNSCore/dnssec.c:3584-3631 | no valid anchor matches better than the one chosen |
| InsecureProof.ChosenExactly | mDNSResponder/mDNSCore/dnssec.c:3584-3631 | the anchor chosen is the first of those valid that match the most labels, or, if none matches a label, the last one for the root |
| InsecureProof.NoAnchorFound | mDNSResponder/mDNSCore/dnssec.c:3584-3631 | none is found if and only if no valid anchor shares a label with the name or is a root anchor |
| InsecureProof.NamesGrow | mDNSResponder/mDNSCore/dnssec.c:3845-3950 | the names asked for are successive suffixes, each one label longer, if and only if the anchor has no more labels than the name; below a longer one `skip` wraps around and the first two questions are for the root |
| LongAnchor.LongAnchorChosen | mDNSResponder/mDNSCore/dnssec.c:3584-3631 | such an anchor is chosen: that of b.a for the name a |
| LongAnchor.RootAskedTwice | mDNSResponder/mDNSCore/dnssec.c:3845-3950 | and a proof that asks for the root twice, its first reply being a proved denial |
| InsecureProof.Proof.constructor | mDNSResponder/mDNSCore/dnssec.c:3845-3950 | how a proof begins: no anchor is Insecure, nothing to skip is Bogus, otherwise the first question |
| InsecureProof.Proof.Ask | mDNSResponder/mDNSCore/dnssec.c:3907-3950 | `skip` goes down by one, never from zero, and no name beyond the trigger is asked for |
| InsecureProof.Proof.Answer | mDNSResponder/mDNSCore/dnssec.c:3686-3838 | a reply delivers Insecure if and only if it is not timed out, its status is Secure or Insecure, and its first record is a DS with a digest type other than 1 and 2 or an algorithm other than 5, 7, 8 and 10, or an NSEC or NSEC3 with a delegation shown; any other delivers Bogus or leads to exactly one further question, as `VerdictExactly` says |
| InsecureProof.VerdictExactly | mDNSResponder/mDNSCore/dnssec.c:3686-3838 | which replies show a break, lead one label further down, or neither, by record type, digest type and algorithm number |
| InsecureProof.Proof.Deliver | mDNSResponder/mDNSCore/dnssec.c:3645-3684 | one result, and after Bogus the chain there was before the proof |
| InsecureProof.Proof.Run | mDNSResponder/mDNSCore/dnssec.c:3716-3950 | over any run of replies at most one result, never Secure, and it is there after as many replies as labels to skip; it is Insecure if and only if some reply shows the break and each one before it leads on to a name within the trigger; and never when every reply is a Secure DS of digest type 1 or 2 and algorithm 5, 7, 8 or 10, each of which leads one label further down |
| ValidationCallback.SameAsCached | mDNSResponder/mDNSCore/dnssec.c:2790-2900 | the comparison that marks what was found: true if and only if each cached record of the type and class is one of the validated ones, and each of these was found |
| ValidationCallback.StandsIsEqual | mDNSResponder/mDNSCore/dnssec.c:2790-2900 | with data compared by equality and no record twice, that is if and only if the validated records are exactly the cached ones |
| ValidationCallback.Callback.Result | mDNSResponder/mDNSCore/dnssec.c:3034-3080 | what becomes of a result under each requirement: at most one proof is started; a result is reported if and only if a cached record still answers and what was validated is what is cached; the verifier is given back unless a proof goes on or no cached record answers |
| ValidationCallback.ReportAtMostOnce | mDNSResponder/mDNSCore/dnssec.c:3034-3080 | with validation required at most one result is reported, and exactly one if what was validated stands in the cache: that of the verification, or after a Bogus one that of the proof, which is Insecure if and only if there is no anchor or its replies show the break; a Bogus verification never turns into a Secure one |
| ValidationCallback.VerifyAndReport | mDNSResponder/mDNSCore/dnssec.c:2521-2595 | from the callbacks to the report: nothing but Secure is reported, and that has a linked and anchored chain from the set in question, and if records answer the question, those of the type and class in the cache are the ones of that set and none is missing |

## Left out

- PutDomainNameAsLabels: the null position argument is not modelled; like the code's, the model's search reads the octet at its limit, which has to be readable.
- MessageRoundTrip: assumes that octets once written stay; FilledInExactly has the octets that are filled in afterwards.
- RecordReadsBack: the condition is enough but not needed, because where a match runs through a length, the one value filled in may happen to lead to the same name; the condition that is exact, over all values, is that of FilledInExactly.
- PutResourceRecord: the unregistered record type, the null position and the count pointer are not modelled; the counts in the header are octets that may change.
- GetLargeResourceRecord: the cache fields and hashes it sets are not modelled; MD, MF, MB, MG, MR, MINFO, NSAP_PTR, NAPTR, OPT, DS, RRSIG, NSEC, DNSKEY, NSEC3, TKEY and TSIG data is taken as not parsed.
- ConvertDomainName: an escape character above 127, whose comparison depends on the sign of `char`, is taken as unsigned.
- GetDomainName: the octet at the end of the message has to be readable, because the second octet of a pointer is read there without a check.
- PutRData: NSEC, OPT and the types whose writing, reading and length do not line up (MINFO, MD, MF, MB, MG, MR, NSAP_PTR) are not modelled.
- SetRData: only for the layouts PutRData writes; without a message the data is required to have been validated, as the code's comment demands of its callers.
- RDataHashValue: OPT, which is never compared, is not modelled.
- SignMessage: where the record is put into the packet, the count of additional records and a clock that fails are not modelled.
- VerifyMessage: the record's data is its storage, which is longer than the data; fields that lie behind the data's end, which the code does not check, are read from it.
- Base64ToBin: the mode without a target, which only counts, is not modelled; target sizes are not wrapped at 2^32.
- NeverRevisited: the run ends where the numbers could pass 2^32.
- Finish: setting the time to live of validated records is not modelled; it uses expiry minus inception, not expiry minus now.
- Answer: the NSEC and NSEC3 proofs behind a negative or wildcard answer are outside; the model ends in the mode Proving.
- Resolve: the caches are taken to hold each set whole, as the comment in VerifySigCallback demands of its caller, and anchors to be valid at all its callbacks or at none; where an anchor names a key but is not valid, the DS records must have come, because no question is asked for them.
- Run: memory failures, which deliver Bogus or drop a record, are not modelled.
- Result: which cached records answer a question that is not validating, the comparison of record data, and the comparison of denials after a negative validation are parameters; what a question does with a result is not modelled.
- SetNewRData: the estimate, HINFO data whose strings do not fill it, and NSEC are not modelled.
- Proof.Answer: replies that carry no validation result, which are passed over, are not modelled; whether a cached denial shows a delegation is part of the reply.
- The rounds of MD5, RSA and SHA arithmetic and the function tables of CryptoAlg.c are parameters.
- RDATACompare is not modelled; its comparisons of names and of SOA data are not total orders.
- Label and name building beside the text form (AppendDomainLabel, ConstructServiceName and their like), the host label conversion and the display routines are left out: they would add easy members.
- Sockets, platform memory, locks, logging and the command-line tools.
