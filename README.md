# shared-ldap core, modelled in Dafny

This project models the core of Apache Directory's shared-ldap library: the parts that encode,
decode and hold LDAP protocol and schema data. It covers:

- **BER encoders** for LDAP controls and extended operations: AbandonRequest, the basic control
  envelope, EntryChange, GracefulDisconnect and CertGeneration. They write type-length-value
  triples into a fixed-size byte buffer, following ITU-T X.690 sections 8.1.3 (length octets),
  8.3 (INTEGER) and 8.7 (OCTET STRING).
- **Grammar actions of the streaming decoder**: the search time limit, a ModifyDN new superior, an
  AddRequest attribute type, and the password-policy time before expiration. Each action turns
  one decoded value into a change to the message under construction, or into a decoding error.
- **Message beans**: SearchRequestImpl, AddRequestImpl, BindRequestImpl and
  AbstractAbandonableRequest, with their setters, their `equals` and `hashCode`, and the responses
  they create.
- **SetCursor**, a bidirectional cursor over a snapshot of a set.
- **Schema values and matching**: ServerStringValue (normalisation, comparison, serialisation),
  IntegerComparator and BooleanNormalizer.
- **Registries**: DefaultNormalizerRegistry and the read-only registry views.
- **ObjectClassHolder**, the schema converter's LDIF writer for object classes.
- **DefaultSchemaManager**, the part that loads schemas in dependency order and records who
  depends on whom.

Objects whose fields the library updates in place are Dafny classes with `modifies` frames. Pure
computations are functions, with lemmas relating them (round trips, symmetry, idempotence,
preserved invariants). The BER helper classes (BerValue, TLV, IntegerDecoder) are not part of this
model: their behaviour is written as X.690 specification functions in `ber.dfy`. Collaborators
whose code is not part of this model are function parameters: the DN parser and `Dn.equals`, the filter
parser and its branch normalizer, `AttributeType.equals`, `Entry.equals`,
normalizers, syntax checkers, comparators and the UTF-8 codec.

## Model

| member | source | states |
|---|---|---|
| AbandonRequestDecorator.AbandonRequestPdu | ldap/codec/core/src/main/java/org/apache/directory/shared/ldap/codec/decorators/AbandonRequestDecorator.java:127-134 | the octets written are one TLV: tag 0x50, then the message id's minimal two's-complement contents octets |
| AbandonRequestDecorator.AbandonRequestDecorator.GetAbandoned | ldap/codec/core/src/main/java/org/apache/directory/shared/ldap/codec/decorators/AbandonRequestDecorator.java:62-65 | returns the stored message id |
| AbandonRequestDecorator.AbandonRequestDecorator.SetAbandoned | ldap/codec/core/src/main/java/org/apache/directory/shared/ldap/codec/decorators/AbandonRequestDecorator.java:71-76 | stores the id, so a later get returns it, and returns the decorator itself |
| AbandonRequestDecorator.AbandonRequestDecorator.ComputeLength | ldap/codec/core/src/main/java/org/apache/directory/shared/ldap/codec/decorators/AbandonRequestDecorator.java:156-161 | is exactly the number of octets `encode` writes, and lies between 3 and 6 |
| AbandonRequestDecorator.AbandonRequestDecorator.Encode | ldap/codec/core/src/main/java/org/apache/directory/shared/ldap/codec/decorators/AbandonRequestDecorator.java:124-145 | succeeds exactly when the PDU fits and then appends exactly the PDU and returns the same buffer; otherwise an `EncoderException`, with only a strict prefix of the PDU written |
| AbandonRequestDecorator.AbandonLengthIsShort | ldap/codec/core/src/main/java/org/apache/directory/shared/ldap/codec/decorators/AbandonRequestDecorator.java:131 | the length octet is in short form (1 to 4) and counts the contents octets |
| AbandonRequestDecorator.AbandonRequestRoundTrip | ldap/codec/core/src/main/java/org/apache/directory/shared/ldap/codec/decorators/AbandonRequestDecorator.java:124-145 | what is written decodes as one TLV with tag 0x50 whose contents parse back to the same message id |
| AbandonRequestDecorator.AbandonRequestExamples | ldap/codec/core/src/main/java/org/apache/directory/shared/ldap/codec/decorators/AbandonRequestDecorator.java:127-134 | id 0 is not omitted and is written `50 01 00`; id 5 is `50 01 05`; id 300 is `50 02 01 2C` |
| BasicControlDecorator.BasicControlDecorator.Decode | ldap/codec/core/src/main/java/org/apache/directory/shared/ldap/codec/BasicControlDecorator.java:63-66 | never parses: the result is always null |
| BasicControlDecorator.BasicControlDecorator.ComputeLength | ldap/codec/core/src/main/java/org/apache/directory/shared/ldap/codec/BasicControlDecorator.java:72-85 | caches and returns 0 for a null value and the value's length otherwise |
| BasicControlDecorator.BasicControlDecorator.Encode | ldap/codec/core/src/main/java/org/apache/directory/shared/ldap/codec/BasicControlDecorator.java:91-104 | a null buffer is an `EncoderException`; otherwise the value octets are appended verbatim with no tag or length, and nothing is written when the cached length is 0 or the value does not fit |
| EntryChangeDecorator.ChangeTypeTlv | ldap/codec/core/src/main/java/org/apache/directory/shared/ldap/codec/controls/search/entryChange/EntryChangeDecorator.java:148-150 | changeType is always an ENUMERATED of length 1 with one value octet, three octets in all |
| EntryChangeDecorator.EntryChangeDecorator.ComputeLength | ldap/codec/core/src/main/java/org/apache/directory/shared/ldap/codec/controls/search/entryChange/EntryChangeDecorator.java:106-128 | caches the lengths and returns the exact length of the value that is then written, and caches the previous DN's UTF-8 octets only when there is one |
| EntryChangeDecorator.EntryChangeDecorator.Encode | ldap/codec/core/src/main/java/org/apache/directory/shared/ldap/codec/controls/search/entryChange/EntryChangeDecorator.java:138-163 | a null buffer is an `EncoderException`; otherwise it succeeds exactly when the value fits, and then appends exactly the value (SEQUENCE, changeType, previousDN, changeNumber, in that order); an overflow in the plain puts escapes as `BufferOverflowException`, one in the BER helpers becomes `EncoderException` |
| EntryChangeDecorator.EntryChangeDecorator.EncodeInto | ldap/codec/core/src/main/java/org/apache/directory/shared/ldap/codec/controls/search/entryChange/EntryChangeDecorator.java:145-160 | the same writes on a non-null buffer: which exception an overflow raises depends on whether the header and changeType fit |
| EntryChangeDecorator.EntryChangeDecorator.GetValue | ldap/codec/core/src/main/java/org/apache/directory/shared/ldap/codec/controls/search/entryChange/EntryChangeDecorator.java:169-204 | memoizes: with a cached value it returns that value and changes nothing; otherwise it returns and caches exactly the octets `encode` writes |
| EntryChangeDecorator.EntryChangeDecorator.EncodeIntoFreshBuffer | ldap/codec/core/src/main/java/org/apache/directory/shared/ldap/codec/controls/search/entryChange/EntryChangeDecorator.java:175-195 | writing into a buffer of exactly `valueLength` octets never overflows and yields the value |
| EntryChangeDecorator.EncodeHeader | ldap/codec/core/src/main/java/org/apache/directory/shared/ldap/codec/controls/search/entryChange/EntryChangeDecorator.java:145-150 | the SEQUENCE header and changeType are written exactly when they fit |
| EntryChangeDecorator.EncodeOptionals | ldap/codec/core/src/main/java/org/apache/directory/shared/ldap/codec/controls/search/entryChange/EntryChangeDecorator.java:152-160 | a null previous DN and an undefined change number (-1) write nothing; the others are written in order when they fit, and an overflow is an `EncoderException` |
| EntryChangeDecorator.EntryChangeLength | ldap/codec/core/src/main/java/org/apache/directory/shared/ldap/codec/controls/search/entryChange/EntryChangeDecorator.java:106-128 | the value's length is 1 + the length octets + a body of 3, plus 1 + length octets + length for a previous DN, plus 2 + integer octets for a defined change number |
| EntryChangeDecorator.EntryChangeValueDecodes | ldap/codec/core/src/main/java/org/apache/directory/shared/ldap/codec/controls/search/entryChange/EntryChangeDecorator.java:145-146 | the value is one SEQUENCE TLV holding the body and nothing after it |
| EntryChangeDecorator.EntryChangeBodyDecodes | ldap/codec/core/src/main/java/org/apache/directory/shared/ldap/codec/controls/search/entryChange/EntryChangeDecorator.java:148-150 | the body begins with the changeType ENUMERATED TLV |
| EntryChangeDecorator.PreviousDnDecodes | ldap/codec/core/src/main/java/org/apache/directory/shared/ldap/codec/controls/search/entryChange/EntryChangeDecorator.java:152-155 | a previous DN follows as an OCTET STRING of its UTF-8 octets |
| EntryChangeDecorator.ChangeNumberDecodes | ldap/codec/core/src/main/java/org/apache/directory/shared/ldap/codec/controls/search/entryChange/EntryChangeDecorator.java:157-160 | a defined change number ends the body as an INTEGER that reads back as the same number |
| EntryChangeDecorator.EntryChangeMinimalValue | ldap/codec/core/src/main/java/org/apache/directory/shared/ldap/codec/controls/search/entryChange/EntryChangeDecorator.java:106-128 | with neither optional field the value is `30 03 0A 01 <type>` |
| GracefulDisconnect.DelayTlvAsWritten | ldap/extras/codec/src/main/java/org/apache/directory/shared/ldap/extras/extended/ads_impl/gracefulDisconnect/GracefulDisconnect.java:169-171 | the delay field as written is its tag, a length octet counted like a length, and the integer contents octets: 2 + the integer octet count in all |
| GracefulDisconnect.TimeOfflinePart | ldap/extras/codec/src/main/java/org/apache/directory/shared/ldap/extras/extended/ads_impl/gracefulDisconnect/GracefulDisconnect.java:119-122 | timeOffline takes no octets at its DEFAULT 0, otherwise 2 + its integer octet count |
| GracefulDisconnect.DelayPart | ldap/extras/codec/src/main/java/org/apache/directory/shared/ldap/extras/extended/ads_impl/gracefulDisconnect/GracefulDisconnect.java:124-127 | delay takes no octets at its DEFAULT 0, otherwise 2 + its integer octet count |
| GracefulDisconnect.ContextsPart | ldap/extras/codec/src/main/java/org/apache/directory/shared/ldap/extras/extended/ads_impl/gracefulDisconnect/GracefulDisconnect.java:129-142 | no replicated contexts means no inner SEQUENCE; otherwise a SEQUENCE of tag, length octets and the URLs' OCTET STRINGs |
| GracefulDisconnect.GracefulDisconnect.constructor | ldap/extras/codec/src/main/java/org/apache/directory/shared/ldap/extras/extended/ads_impl/gracefulDisconnect/GracefulDisconnect.java:67-70 | stores timeOffline and delay, with no replicated contexts |
| GracefulDisconnect.GracefulDisconnect.AddReplicatedContexts | ldap/extras/codec/src/main/java/org/apache/directory/shared/ldap/extras/extended/ads_impl/gracefulDisconnect/GracefulDisconnect.java:98-101 | appends one URL at the end of the list |
| GracefulDisconnect.GracefulDisconnect.ComputeLength | ldap/extras/codec/src/main/java/org/apache/directory/shared/ldap/extras/extended/ads_impl/gracefulDisconnect/GracefulDisconnect.java:115-145 | caches the SEQUENCE and inner SEQUENCE lengths and returns exactly the length of the PDU `encode` writes: 1 + length octets + contents |
| GracefulDisconnect.GracefulDisconnect.Encode | ldap/extras/codec/src/main/java/org/apache/directory/shared/ldap/extras/extended/ads_impl/gracefulDisconnect/GracefulDisconnect.java:154-187 | allocates a fresh buffer of exactly `computeLength` octets and fills it completely with the PDU |
| GracefulDisconnect.EncodeAll | ldap/extras/codec/src/main/java/org/apache/directory/shared/ldap/extras/extended/ads_impl/gracefulDisconnect/GracefulDisconnect.java:159-184 | the SEQUENCE header and then the present fields fill the buffer with the PDU |
| GracefulDisconnect.PutSequenceHeader | ldap/extras/codec/src/main/java/org/apache/directory/shared/ldap/extras/extended/ads_impl/gracefulDisconnect/GracefulDisconnect.java:159-160 | writes the SEQUENCE tag and the length octets of its contents |
| GracefulDisconnect.GracefulDisconnectPduParts | ldap/extras/codec/src/main/java/org/apache/directory/shared/ldap/extras/extended/ads_impl/gracefulDisconnect/GracefulDisconnect.java:154-187 | the PDU is the SEQUENCE header followed by timeOffline, delay and contexts, each only when present |
| GracefulDisconnect.ReplicatedContextsLength | ldap/extras/codec/src/main/java/org/apache/directory/shared/ldap/extras/extended/ads_impl/gracefulDisconnect/GracefulDisconnect.java:131-138 | the loop adds up to exactly the length of the encoded URLs |
| GracefulDisconnect.EncodeFields | ldap/extras/codec/src/main/java/org/apache/directory/shared/ldap/extras/extended/ads_impl/gracefulDisconnect/GracefulDisconnect.java:162-184 | appends timeOffline, delay and the contexts, in that order, each only when present |
| GracefulDisconnect.EncodeTimeOffline | ldap/extras/codec/src/main/java/org/apache/directory/shared/ldap/extras/extended/ads_impl/gracefulDisconnect/GracefulDisconnect.java:162-165 | appends timeOffline as an INTEGER unless it is 0 |
| GracefulDisconnect.EncodeDelay | ldap/extras/codec/src/main/java/org/apache/directory/shared/ldap/extras/extended/ads_impl/gracefulDisconnect/GracefulDisconnect.java:167-172 | appends the delay field as written unless it is 0 |
| GracefulDisconnect.EncodeContexts | ldap/extras/codec/src/main/java/org/apache/directory/shared/ldap/extras/extended/ads_impl/gracefulDisconnect/GracefulDisconnect.java:174-184 | appends the inner SEQUENCE of URLs unless there are none |
| GracefulDisconnect.EncodeUrls | ldap/extras/codec/src/main/java/org/apache/directory/shared/ldap/extras/extended/ads_impl/gracefulDisconnect/GracefulDisconnect.java:180-183 | appends one OCTET STRING per URL, in list order |
| GracefulDisconnect.ContextsBodyAppend | ldap/extras/codec/src/main/java/org/apache/directory/shared/ldap/extras/extended/ads_impl/gracefulDisconnect/GracefulDisconnect.java:180-183 | encoding two lists one after the other encodes their concatenation |
| GracefulDisconnect.ContextsRoundTrip | ldap/extras/codec/src/main/java/org/apache/directory/shared/ldap/extras/extended/ads_impl/gracefulDisconnect/GracefulDisconnect.java:98-101 | the encoded contexts read back as the same URLs, in the order they were added |
| GracefulDisconnect.GracefulDisconnectDefaults | ldap/extras/codec/src/main/java/org/apache/directory/shared/ldap/extras/extended/ads_impl/gracefulDisconnect/GracefulDisconnect.java:117-160 | with every field at its DEFAULT the PDU is `30 00` |
| GracefulDisconnect.DelayTlvAgreement | ldap/extras/codec/src/main/java/org/apache/directory/shared/ldap/extras/extended/ads_impl/gracefulDisconnect/GracefulDisconnect.java:170-171 | the delay's length octet is right exactly when the length count and the integer count agree: for a delay below 256, from 32768 to 65535 or from 2^23 to 2^24 - 1 |
| GracefulDisconnect.DelayOf300Misread | ldap/extras/codec/src/main/java/org/apache/directory/shared/ldap/extras/extended/ads_impl/gracefulDisconnect/GracefulDisconnect.java:170-171 | a delay of 300 is written `80 03 01 2C`: a reader takes the next field's first octet into the delay, and on its own it does not decode |
| GracefulDisconnect.DelayTlvRoundTrip | ldap/extras/codec/src/main/java/org/apache/directory/shared/ldap/extras/extended/ads_impl/gracefulDisconnect/GracefulDisconnect.java:167-172 | corrected, the delay field decodes as tag [0] with contents that read back as the same delay, whatever follows |
| CertGenerationObject.OctetStringCount | ldap/extras/codec/src/main/java/org/apache/directory/shared/ldap/extras/extended/ads_impl/certGeneration/CertGenerationObject.java:67-77 | what `computeLength` counts for one field never exceeds the OCTET STRING actually written, and equals it exactly when the integer octet count of its length equals the length octet count |
| CertGenerationObject.FieldsFit | ldap/extras/codec/src/main/java/org/apache/directory/shared/ldap/extras/extended/ads_impl/certGeneration/CertGenerationObject.java:65-96 | the four fields fit in `requestLength` octets exactly when every count agrees, and then fill it exactly |
| CertGenerationObject.CertGenerationObject.constructor | ldap/extras/codec/src/main/java/org/apache/directory/shared/ldap/extras/extended/ads_impl/certGeneration/CertGenerationObject.java:53-56 | holds the request's four strings, nothing computed yet |
| CertGenerationObject.CertGenerationObject.ComputeLength | ldap/extras/codec/src/main/java/org/apache/directory/shared/ldap/extras/extended/ads_impl/certGeneration/CertGenerationObject.java:65-80 | caches `requestLength` as the sum of the four field counts and returns 1 + its integer octet count + it: never more than what `encode` writes, and equal when the counts agree |
| CertGenerationObject.CertGenerationObject.Encode | ldap/extras/codec/src/main/java/org/apache/directory/shared/ldap/extras/extended/ads_impl/certGeneration/CertGenerationObject.java:83-96 | succeeds exactly when every count agrees, and then fills a fresh buffer of exactly the computed size with the SEQUENCE tag, the integer octets of `requestLength` and the four OCTET STRINGs in the order targetDN, issuerDN, subjectDN, keyAlgorithm; otherwise an `EncoderException` |
| CertGenerationObject.EncodeRequest | ldap/extras/codec/src/main/java/org/apache/directory/shared/ldap/extras/extended/ads_impl/certGeneration/CertGenerationObject.java:85-93 | the header and the four fields fill the buffer exactly when every count agrees |
| CertGenerationObject.PutHeader | ldap/extras/codec/src/main/java/org/apache/directory/shared/ldap/extras/extended/ads_impl/certGeneration/CertGenerationObject.java:87-88 | writes the SEQUENCE tag and `BerValue.getBytes(requestLength)` |
| CertGenerationObject.EncodeFields | ldap/extras/codec/src/main/java/org/apache/directory/shared/ldap/extras/extended/ads_impl/certGeneration/CertGenerationObject.java:90-93 | the four fields are appended in order when they fit; otherwise an `EncoderException` |
| CertGenerationObject.AsWrittenWhenShort | ldap/extras/codec/src/main/java/org/apache/directory/shared/ldap/extras/extended/ads_impl/certGeneration/CertGenerationObject.java:88 | while the contents stay under 128 octets, what is written is the X.690 encoding |
| CertGenerationObject.OuterLengthMisread | ldap/extras/codec/src/main/java/org/apache/directory/shared/ldap/extras/extended/ads_impl/certGeneration/CertGenerationObject.java:88 | a 120-octet targetDN makes `requestLength` 128, written `00 80`: a reader sees an empty SEQUENCE with the contents left over after it |
| CertGenerationObject.FieldOf256Overflows | ldap/extras/codec/src/main/java/org/apache/directory/shared/ldap/extras/extended/ads_impl/certGeneration/CertGenerationObject.java:67-77 | a field of 256 to 32767 octets is counted with two octets but written with three |
| CertGenerationObject.CertGenerationRoundTrip | ldap/extras/codec/src/main/java/org/apache/directory/shared/ldap/extras/extended/ads_impl/certGeneration/CertGenerationObject.java:83-96 | corrected, the payload decodes as one SEQUENCE holding the four fields, whatever follows |
| CertGenerationObject.FieldsRoundTrip | ldap/extras/codec/src/main/java/org/apache/directory/shared/ldap/extras/extended/ads_impl/certGeneration/CertGenerationObject.java:90-93 | the contents read back as the four strings, in the order written |
| StoreSearchRequestTimeLimit.Action | ldap/codec/core/src/main/java/org/apache/directory/shared/ldap/codec/actions/searchRequest/StoreSearchRequestTimeLimit.java:68-97 | succeeds exactly when the value is one to four octets whose two's-complement value lies in 0..2^31-1, and then stores that value as the timeLimit; otherwise a `DecoderException` with the old timeLimit kept; nothing else is written |
| StoreSearchRequestTimeLimit.TimeLimitRoundTrip | ldap/codec/core/src/main/java/org/apache/directory/shared/ldap/codec/actions/searchRequest/StoreSearchRequestTimeLimit.java:82 | every limit in 0..2^31-1, encoded minimally, is stored as sent |
| StoreSearchRequestTimeLimit.NegativeTimeLimitRefused | ldap/codec/core/src/main/java/org/apache/directory/shared/ldap/codec/actions/searchRequest/StoreSearchRequestTimeLimit.java:82-89 | the octet FF reads as -1 and is refused, and so is an empty value |
| StoreModifyDnRequestNewSuperior.Action | ldap/codec/core/src/main/java/org/apache/directory/shared/ldap/codec/actions/modifyDnRequest/StoreModifyDnRequestNewSuperior.java:70-126 | an empty value with deleteOldRdn is a `DecoderException`; an empty value otherwise sets the empty DN; an unparsable DN is a `ResponseCarryingException` with INVALID_DN_SYNTAX, the request's name and a ModifyDnResponse of the same message id; a DN is stored; failures change nothing and success allows the grammar to end |
| AddAttributeType.SearchResultEntry.AddAttribute | ldap/codec/core/src/main/java/org/apache/directory/shared/ldap/codec/actions/searchResultEntry/AddAttributeType.java:91 | a type the schema refuses adds nothing; any other is appended as a new attribute |
| AddAttributeType.Action | ldap/codec/core/src/main/java/org/apache/directory/shared/ldap/codec/actions/searchResultEntry/AddAttributeType.java:69-106 | an empty type is a `DecoderException` with the entry unchanged; otherwise exactly one attribute of the UTF-8 type is added, and a refusal becomes a `DecoderException`; the end flag is never touched |
| StoreTimeBeforeExpiration.SetIntegerValue | ldap/extras/codec/src/main/java/org/apache/directory/shared/ldap/extras/controls/ppolicy_impl/StoreTimeBeforeExpiration.java:49-56 | the response's timeBeforeExpiration becomes exactly the value, the grammar may end, and the grace count is untouched |
| SearchRequestImpl.RemoveFirstAbsent | ldap/model/src/main/java/org/apache/directory/shared/ldap/model/message/SearchRequestImpl.java:285-290 | removing an attribute that is not listed leaves the list as it is |
| SearchRequestImpl.RemoveFirstPresent | ldap/model/src/main/java/org/apache/directory/shared/ldap/model/message/SearchRequestImpl.java:285-290 | removing a listed attribute drops exactly its first occurrence and keeps the rest in order |
| SearchRequestImpl.RemoveFirstMultiset | ldap/model/src/main/java/org/apache/directory/shared/ldap/model/message/SearchRequestImpl.java:285-290 | removing takes away one copy of the attribute and nothing else |
| SearchRequestImpl.AttributesMatchIgnoresOrder | ldap/model/src/main/java/org/apache/directory/shared/ldap/model/message/SearchRequestImpl.java:440-464 | two attribute lists that hold the same attributes (in any order) are equal in both directions |
| SearchRequestImpl.AttributesMatchAsymmetric | ldap/model/src/main/java/org/apache/directory/shared/ldap/model/message/SearchRequestImpl.java:440-464 | the list check is not symmetric: ["a","a"] matches ["a","b"] but not the reverse |
| SearchRequestImpl.AttributesMatchCorrectedSymmetric | ldap/model/src/main/java/org/apache/directory/shared/ldap/model/message/SearchRequestImpl.java:440-464 | the multiset comparison is symmetric and implies the check as written |
| SearchRequestImpl.LimitText | ldap/model/src/main/java/org/apache/directory/shared/ldap/model/message/SearchRequestImpl.java:516-537 | a zero limit is shown as "no limit", and only a zero limit; any other limit is shown as its decimal digits, which read back as the limit |
| SearchRequestImpl.SearchRequestImpl.constructor | ldap/model/src/main/java/org/apache/directory/shared/ldap/model/message/SearchRequestImpl.java:49-86 | a new request has no base, filter or scope, no limits, types-only off, alias dereferencing DEREF_ALWAYS, no attributes and no response |
| SearchRequestImpl.SearchRequestImpl.SetBase | ldap/model/src/main/java/org/apache/directory/shared/ldap/model/message/SearchRequestImpl.java:116-121 | the base becomes the given DN and the request itself is returned |
| SearchRequestImpl.SearchRequestImpl.SetDerefAliases | ldap/model/src/main/java/org/apache/directory/shared/ldap/model/message/SearchRequestImpl.java:136-141 | the alias dereferencing mode becomes the given one |
| SearchRequestImpl.SearchRequestImpl.SetFilterNode | ldap/model/src/main/java/org/apache/directory/shared/ldap/model/message/SearchRequestImpl.java:156-160 | the filter becomes the given expression tree |
| SearchRequestImpl.SearchRequestImpl.SetFilter | ldap/model/src/main/java/org/apache/directory/shared/ldap/model/message/SearchRequestImpl.java:166-179 | the UTF-8 bytes of the text are parsed; a parse error is an `LdapProtocolErrorException` leaving the filter as it was, otherwise the filter becomes the parsed tree |
| SearchRequestImpl.SearchRequestImpl.SetScope | ldap/model/src/main/java/org/apache/directory/shared/ldap/model/message/SearchRequestImpl.java:203-208 | the scope becomes the given one |
| SearchRequestImpl.SearchRequestImpl.SetSizeLimit | ldap/model/src/main/java/org/apache/directory/shared/ldap/model/message/SearchRequestImpl.java:223-228 | the size limit becomes the given long |
| SearchRequestImpl.SearchRequestImpl.SetTimeLimit | ldap/model/src/main/java/org/apache/directory/shared/ldap/model/message/SearchRequestImpl.java:243-248 | the time limit becomes the given int |
| SearchRequestImpl.SearchRequestImpl.SetTypesOnly | ldap/model/src/main/java/org/apache/directory/shared/ldap/model/message/SearchRequestImpl.java:263-268 | the types-only flag becomes the given one |
| SearchRequestImpl.SearchRequestImpl.AddAttributes | ldap/model/src/main/java/org/apache/directory/shared/ldap/model/message/SearchRequestImpl.java:274-279 | the attributes are appended in order after those already listed |
| SearchRequestImpl.SearchRequestImpl.RemoveAttribute | ldap/model/src/main/java/org/apache/directory/shared/ldap/model/message/SearchRequestImpl.java:285-290 | the first occurrence of the attribute is removed: one copy fewer, nothing else changed |
| SearchRequestImpl.SearchRequestImpl.GetResultResponse | ldap/model/src/main/java/org/apache/directory/shared/ldap/model/message/SearchRequestImpl.java:296-304 | the first call creates a SearchResultDone with the request's message id and remembers it; later calls return that same object |
| SearchRequestImpl.SearchRequestImpl.FieldsMatch | ldap/model/src/main/java/org/apache/directory/shared/ldap/model/message/SearchRequestImpl.java:410-463 | a match has a non-null base on this side, the same scope and as many requested attributes |
| SearchRequestImpl.SearchRequestImpl.Equals | ldap/model/src/main/java/org/apache/directory/shared/ldap/model/message/SearchRequestImpl.java:396-472 | the same object is equal; a different message id or a mismatched field is not, with nothing changed; a null base on the other request is a null dereference; otherwise both filters are rewritten in place by the branch normalizer, the other's first, a null filter on either side is a null dereference, and the result is whether the rewritten texts are equal |
| SetCursor.NextIndex | ldap/model/src/main/java/org/apache/directory/shared/ldap/model/cursor/SetCursor.java:339-373 | stepping forward from before-first or a valid position lands on the next element when there is one, and otherwise parks after the last and reports false |
| SetCursor.PreviousIndex | ldap/model/src/main/java/org/apache/directory/shared/ldap/model/cursor/SetCursor.java:301-333 | stepping backward lands on the previous element when there is one, and otherwise parks before the first and reports false |
| SetCursor.NextTimesInside | ldap/model/src/main/java/org/apache/directory/shared/ldap/model/cursor/SetCursor.java:339-373 | k steps forward from a position that stays inside the set land k elements further, each reporting true |
| SetCursor.ForwardScan | ldap/model/src/main/java/org/apache/directory/shared/ldap/model/cursor/SetCursor.java:339-373 | from before-first, n steps visit the last of n elements, one more step parks after the last, and stepping past the end stays there |
| SetCursor.PreviousUndoesNext | ldap/model/src/main/java/org/apache/directory/shared/ldap/model/cursor/SetCursor.java:301-373 | a successful step back undoes a successful step forward |
| SetCursor.SetCursor.constructor | ldap/model/src/main/java/org/apache/directory/shared/ldap/model/cursor/SetCursor.java:67-81 | the cursor holds the set's elements (none for a null set), keeps the comparator and starts before the first element |
| SetCursor.SetCursor.Get | ldap/model/src/main/java/org/apache/directory/shared/ldap/model/cursor/SetCursor.java:379-389 | a closed cursor throws; otherwise the element under the cursor is returned when one is available, and an IOException is thrown when none is |
| SetCursor.SetCursor.Next | ldap/model/src/main/java/org/apache/directory/shared/ldap/model/cursor/SetCursor.java:339-373 | a closed cursor throws and stays put; otherwise the position and the answer are those of NextIndex |
| SetCursor.SetCursor.Previous | ldap/model/src/main/java/org/apache/directory/shared/ldap/model/cursor/SetCursor.java:301-333 | a closed cursor throws and stays put; otherwise the position and the answer are those of PreviousIndex |
| SetCursor.SetCursor.First | ldap/model/src/main/java/org/apache/directory/shared/ldap/model/cursor/SetCursor.java:219-231 | the answer says whether the set is non-empty, and then the cursor is on the first element |
| SetCursor.SetCursor.Last | ldap/model/src/main/java/org/apache/directory/shared/ldap/model/cursor/SetCursor.java:237-249 | the answer says whether the set is non-empty, and then the cursor is on the last element |
| SetCursor.SetCursor.BeforeFirst | ldap/model/src/main/java/org/apache/directory/shared/ldap/model/cursor/SetCursor.java:199-203 | the cursor is parked before the first element, with no element available |
| SetCursor.SetCursor.AfterLast | ldap/model/src/main/java/org/apache/directory/shared/ldap/model/cursor/SetCursor.java:209-213 | the cursor is parked after the last element, with no element available |
| SetCursor.SetCursor.IsFirst | ldap/model/src/main/java/org/apache/directory/shared/ldap/model/cursor/SetCursor.java:256-261 | true exactly when an element is available and it is the first |
| SetCursor.SetCursor.IsLast | ldap/model/src/main/java/org/apache/directory/shared/ldap/model/cursor/SetCursor.java:268-273 | true exactly when an element is available and it is the last |
| SetCursor.SetCursor.IsAfterLast | ldap/model/src/main/java/org/apache/directory/shared/ldap/model/cursor/SetCursor.java:280-284 | true exactly when the cursor is parked after the last element |
| SetCursor.SetCursor.IsBeforeFirst | ldap/model/src/main/java/org/apache/directory/shared/ldap/model/cursor/SetCursor.java:291-295 | true exactly when the cursor is parked before the first element |
| SetCursor.SetCursor.Before | ldap/model/src/main/java/org/apache/directory/shared/ldap/model/cursor/SetCursor.java:133-160 | without a comparator it is an IllegalStateException; an empty set is a no-op; a one-element set parks before or after that element by the comparator and then, like every non-empty set, ends in UnsupportedOperationException |
| SetCursor.SetCursor.After | ldap/model/src/main/java/org/apache/directory/shared/ldap/model/cursor/SetCursor.java:166-193 | as Before, with the one-element case parked after the element when the given one sorts at or after it |
| SetCursor.SetCursor.Close | ldap/model/src/main/java/org/apache/directory/shared/ldap/model/cursor/SetCursor.java:396-404 | the cursor is closed |
| ServerStringValue.MatchingRuleOf | ldap/src/main/java/org/apache/directory/shared/ldap/entry/ServerStringValue.java:458-473 | the equality rule when there is one, else the ordering rule, else the substring rule, and none exactly when the type has none of the three |
| ServerStringValue.Normalized | ldap/src/main/java/org/apache/directory/shared/ldap/entry/ServerStringValue.java:182-202 | an already normalized value, or one whose normalizer refuses it, keeps its cache; otherwise it becomes normalized, to the wrapped string itself when there is no normalizer, and null exactly when the wrapped string is null |
| ServerStringValue.NormalizedIdempotent | ldap/src/main/java/org/apache/directory/shared/ldap/entry/ServerStringValue.java:182-202 | normalizing twice is the same as normalizing once, and a refusal is the same refusal |
| ServerStringValue.SerializedForm | ldap/src/main/java/org/apache/directory/shared/ldap/entry/ServerStringValue.java:579-620 | the stream starts with the null flag and holds at most five items; writing fails with a null dereference exactly when a non-null value is normalized to null, and then the four items written before the failing write are what the stream holds |
| ServerStringValue.SerializeRoundTrip | ldap/src/main/java/org/apache/directory/shared/ldap/entry/ServerStringValue.java:579-676 | reading back what was written restores the wrapped string, the normalized flag and the normalized form, and consumes exactly what was written |
| ServerStringValue.EqualByNormalizer | ldap/src/main/java/org/apache/directory/shared/ldap/entry/ServerStringValue.java:425-438 | a missing equality rule or normalizer is a null dereference; equality needs both normal forms to exist |
| ServerStringValue.ServerStringValue.constructor | ldap/src/main/java/org/apache/directory/shared/ldap/entry/ServerStringValue.java:102-136 | a new value holds its type and wrapped string, unnormalized and with unknown validity |
| ServerStringValue.ServerStringValue.WithNormalizedValue | ldap/src/main/java/org/apache/directory/shared/ldap/entry/ServerStringValue.java:147-154 | the value is created normalized, with the given normal form and validity |
| ServerStringValue.ServerStringValue.Normalize | ldap/src/main/java/org/apache/directory/shared/ldap/entry/ServerStringValue.java:182-202 | the cache becomes Normalized of the old cache, and the call fails exactly when the normalizer refuses the string |
| ServerStringValue.ServerStringValue.GetNormalizedValue | ldap/src/main/java/org/apache/directory/shared/ldap/entry/ServerStringValue.java:216-239 | the normal form after normalizing (null for a null value), with the cache updated as Normalize does |
| ServerStringValue.ServerStringValue.IsValid | ldap/src/main/java/org/apache/directory/shared/ldap/entry/ServerStringValue.java:251-261 | a known validity is returned as is; otherwise the syntax checker decides and the answer is remembered |
| ServerStringValue.ServerStringValue.CompareTo | ldap/src/main/java/org/apache/directory/shared/ldap/entry/ServerStringValue.java:269-329 | a null value sorts before any other and equals another null; otherwise both are normalized and the comparator of this type orders the normal forms, and the lack of one is a null dereference; only the two normalization caches may change |
| ServerStringValue.NullSortsFirst | ldap/src/main/java/org/apache/directory/shared/ldap/entry/ServerStringValue.java:269-329 | a value wrapping null compares as -1 against one wrapping a string, and both keep their strings |
| ServerStringValue.ServerStringValue.Equals | ldap/src/main/java/org/apache/directory/shared/ldap/entry/ServerStringValue.java:380-441 | the same object is equal; a value whose attribute type `AttributeType.equals` rejects is not; null equals only null; equal strings are equal without normalizing; otherwise the normal forms decide, by string equality, the comparator on cached forms, or the equality normalizer and the comparator; only the two normalization caches may change, and on the `getNormalizedValue` paths each becomes CacheAfterGet of its old state |
| ServerStringValue.SameStringEqual | ldap/src/main/java/org/apache/directory/shared/ldap/entry/ServerStringValue.java:380-441 | two distinct values of one type wrapping the same string are equal and keep their strings |
| ServerStringValue.CacheAfterGet | ldap/src/main/java/org/apache/directory/shared/ldap/entry/ServerStringValue.java:216-239 | a null value is marked normalized with its form kept; a non-null one holds the normalized form, and a refused normalization leaves the cache as it was |
| ServerStringValue.ServerStringValue.WriteExternal | ldap/src/main/java/org/apache/directory/shared/ldap/entry/ServerStringValue.java:556-559 | always an IllegalStateException |
| ServerStringValue.ServerStringValue.ReadExternal | ldap/src/main/java/org/apache/directory/shared/ldap/entry/ServerStringValue.java:629-632 | always an IllegalStateException |
| ServerStringValue.ServerStringValue.Serialize | ldap/src/main/java/org/apache/directory/shared/ldap/entry/ServerStringValue.java:579-620 | a non-null value is normalized first (a refusal forgets the normal form), and then exactly its serialized form is written: the whole form on success, and on a null dereference the items written before it together with that error |
| ServerStringValue.FailedSerializeTruncated | ldap/src/main/java/org/apache/directory/shared/ldap/entry/ServerStringValue.java:579-620 | the items a failed write leaves on the stream cannot be read back: reading them ends in an IOException |
| ServerStringValue.ServerStringValue.Deserialize | ldap/src/main/java/org/apache/directory/shared/ldap/entry/ServerStringValue.java:643-676 | the new string, the cache and the rest of the stream are those Deserialized gives for the old state |
| IntegerComparator.CompareLongs | ldap/model/src/main/java/org/apache/directory/shared/ldap/model/schema/comparators/IntegerComparator.java:79-100 | null equals null and sorts before any number; two numbers compare by their order, negative, zero or positive exactly as the first is smaller, equal or larger |
| IntegerComparator.CompareStrings | ldap/model/src/main/java/org/apache/directory/shared/ldap/model/schema/comparators/IntegerComparator.java:108-151 | the same reference compares equal without normalizing; null sorts first; otherwise the answer succeeds exactly when both strings normalize and parse, and then follows the order of the two numbers |
| IntegerComparator.Compare | ldap/model/src/main/java/org/apache/directory/shared/ldap/model/schema/comparators/IntegerComparator.java:61-71 | a string first argument selects the string comparison and any other the Long one; a second argument of the other kind is a ClassCastException |
| IntegerComparator.CompareLongsAntisymmetric | ldap/model/src/main/java/org/apache/directory/shared/ldap/model/schema/comparators/IntegerComparator.java:79-100 | swapping the arguments negates the answer |
| IntegerComparator.CompareStringsAntisymmetric | ldap/model/src/main/java/org/apache/directory/shared/ldap/model/schema/comparators/IntegerComparator.java:108-151 | when both orders succeed, swapping the arguments negates the answer |
| IntegerComparator.CompareDecimals | ldap/model/src/main/java/org/apache/directory/shared/ldap/model/schema/comparators/IntegerComparator.java:132-150 | two decimal numerals that normalize to themselves compare as the numbers they stand for |
| IntegerComparator.SameReferenceShortcut | ldap/model/src/main/java/org/apache/directory/shared/ldap/model/schema/comparators/IntegerComparator.java:115-118 | the same reference compares equal even when it cannot be normalized, while an equal but distinct string is refused |
| BooleanNormalizer.Normalize | ldap/model/src/main/java/org/apache/directory/shared/ldap/model/schema/normalizers/BooleanNormalizer.java:67-75 | null stays null; any other string is trimmed and upper-cased, leaving no edge blanks and no lower-case letter and never growing |
| BooleanNormalizer.NormalizeValue | ldap/model/src/main/java/org/apache/directory/shared/ldap/model/schema/normalizers/BooleanNormalizer.java:51-61 | a null value stays null, any other is a string value |
| BooleanNormalizer.OverloadsAgree | ldap/model/src/main/java/org/apache/directory/shared/ldap/model/schema/normalizers/BooleanNormalizer.java:51-75 | normalizing a value is normalizing its string |
| BooleanNormalizer.NormalizeIdempotent | ldap/model/src/main/java/org/apache/directory/shared/ldap/model/schema/normalizers/BooleanNormalizer.java:67-75 | normalizing twice is normalizing once |
| BooleanNormalizer.LeadingBlankIgnored | ldap/model/src/main/java/org/apache/directory/shared/ldap/model/schema/normalizers/BooleanNormalizer.java:67-75 | a leading blank makes no difference |
| BooleanNormalizer.UpperKeepsEdges | ldap/model/src/main/java/org/apache/directory/shared/ldap/model/schema/normalizers/BooleanNormalizer.java:74 | upper-casing neither adds nor removes blanks at the edges |
| DefaultNormalizerRegistry.AliasKeys | ldap/src/main/java/org/apache/directory/shared/ldap/schema/registries/DefaultNormalizerRegistry.java:80-83 | one key per alias, in order, each the alias lower-cased and trimmed |
| DefaultNormalizerRegistry.PutAll | ldap/src/main/java/org/apache/directory/shared/ldap/schema/registries/DefaultNormalizerRegistry.java:80-83 | the keys become the old keys plus every alias key; each alias key leads to the normalizer and every other old key keeps its entry |
| DefaultNormalizerRegistry.RegisterMapsEveryKey | ldap/src/main/java/org/apache/directory/shared/ldap/schema/registries/DefaultNormalizerRegistry.java:63-83 | after registering, the keys are the old keys plus the OID and the alias keys, and the OID leads to the normalizer |
| DefaultNormalizerRegistry.AliasKeySurvivesUnregister | ldap/src/main/java/org/apache/directory/shared/ldap/schema/registries/DefaultNormalizerRegistry.java:95-117 | an alias key that differs from its alias as given survives unregistering and still leads to the removed normalizer |
| DefaultNormalizerRegistry.MixedCaseAliasExample | ldap/src/main/java/org/apache/directory/shared/ldap/schema/registries/DefaultNormalizerRegistry.java:82-108 | an upper-case one-letter alias such as "T" is registered under its lower-case letter ("t"), which unregistering does not remove |
| DefaultNormalizerRegistry.RegisterThenUnregisterCorrected | ldap/src/main/java/org/apache/directory/shared/ldap/schema/registries/DefaultNormalizerRegistry.java:63-117 | with the keys removed as they were registered, registering and then unregistering a normalizer on free keys gives back the old registry |
| DefaultNormalizerRegistry.DistinctCount | ldap/src/main/java/org/apache/directory/shared/ldap/schema/registries/DefaultNormalizerRegistry.java:162-165 | distinct keys are as many as the list holds |
| DefaultNormalizerRegistry.SizeCountsEntries | ldap/src/main/java/org/apache/directory/shared/ldap/schema/registries/DefaultNormalizerRegistry.java:162-165 | a normalizer with distinct alias keys, none equal to its OID, registered alone gives a size of one plus the number of aliases |
| DefaultNormalizerRegistry.PutKeys | ldap/src/main/java/org/apache/directory/shared/ldap/schema/registries/DefaultNormalizerRegistry.java:80-83 | the loop stores the normalizer under every key, giving PutAll |
| DefaultNormalizerRegistry.RemoveKeys | ldap/src/main/java/org/apache/directory/shared/ldap/schema/registries/DefaultNormalizerRegistry.java:106-109 | the loop removes every listed key and nothing else |
| DefaultNormalizerRegistry.DefaultNormalizerRegistry.constructor | ldap/src/main/java/org/apache/directory/shared/ldap/schema/registries/DefaultNormalizerRegistry.java:54-57 | a new registry is empty |
| DefaultNormalizerRegistry.DefaultNormalizerRegistry.Register | ldap/src/main/java/org/apache/directory/shared/ldap/schema/registries/DefaultNormalizerRegistry.java:63-89 | a registered OID is a NamingException with no change; otherwise the OID and every alias key lead to the normalizer |
| DefaultNormalizerRegistry.DefaultNormalizerRegistry.Unregister | ldap/src/main/java/org/apache/directory/shared/ldap/schema/registries/DefaultNormalizerRegistry.java:95-117 | a non-numeric OID is a NamingException and an unknown one a null dereference, both with no change; otherwise the OID and each alias as given are removed and the normalizer returned |
| DefaultNormalizerRegistry.DefaultNormalizerRegistry.UnregisterCorrected | ldap/src/main/java/org/apache/directory/shared/ldap/schema/registries/DefaultNormalizerRegistry.java:95-117 | as Unregister, but the alias keys are removed in the form they were registered under |
| DefaultNormalizerRegistry.DefaultNormalizerRegistry.UnregisterSchemaElements | ldap/src/main/java/org/apache/directory/shared/ldap/schema/registries/DefaultNormalizerRegistry.java:123-145 | a null schema name changes nothing; otherwise the new map and the outcome are exactly those of SweepSchema over the normalizers the map held on entry, one per key in the order given |
| DefaultNormalizerRegistry.SweepSchema | ldap/src/main/java/org/apache/directory/shared/ldap/schema/registries/DefaultNormalizerRegistry.java:131-143 | the walk only removes entries, never changes one; when it gets through, every visited normalizer of the schema (ignoring case) had a numeric OID that was registered and is registered no more |
| DefaultNormalizerRegistry.SweepRemovesExactly | ldap/src/main/java/org/apache/directory/shared/ldap/schema/registries/DefaultNormalizerRegistry.java:123-145 | when the walk gets through, the registry has lost exactly the OIDs and the names as given of the schema's normalizers, and nothing else |
| DefaultNormalizerRegistry.RepeatFails | ldap/src/main/java/org/apache/directory/shared/ldap/schema/registries/DefaultNormalizerRegistry.java:131-143 | a walk that meets the same OID twice among the schema's normalizers fails, since the second unregister finds it gone |
| DefaultNormalizerRegistry.AliasedNormalizerFails | ldap/src/main/java/org/apache/directory/shared/ldap/schema/registries/DefaultNormalizerRegistry.java:123-145 | a normalizer of the schema held under its OID and an alias is visited twice, so unregistering the schema fails |
| DefaultNormalizerRegistry.AliasedSweepExample | ldap/src/main/java/org/apache/directory/shared/ldap/schema/registries/DefaultNormalizerRegistry.java:123-145 | a registry of one "system" normalizer under "2.5.13.1" and alias "t": unregistering schema "SYSTEM" empties the map and ends with a NullPointerException |
| DefaultNormalizerRegistry.Visits | ldap/src/main/java/org/apache/directory/shared/ldap/schema/registries/DefaultNormalizerRegistry.java:131 | the walk visits, for each key in turn, the normalizer the map held under it |
| DefaultNormalizerRegistry.DefaultNormalizerRegistry.Size | ldap/src/main/java/org/apache/directory/shared/ldap/schema/registries/DefaultNormalizerRegistry.java:162-165 | the number of entries, the OIDs and the alias keys together |
| ImmutableRegistries.ViewAnswersAsBacking | ldap/src/main/java/org/apache/directory/shared/ldap/schema/registries/ImmutableLdapSyntaxRegistry.java:66-132 | size, contains, containsName, getOidByName, lookup and getSchemaName on a view, however deeply nested, answer as the wrapped registry does |
| ImmutableRegistries.OidByNameAgreesWithContainsName | ldap/src/main/java/org/apache/directory/shared/ldap/schema/registries/ImmutableNameFormRegistry.java:86-98 | a view finds the OID of a name exactly when it contains the name |
| ImmutableRegistries.ApplyToView | ldap/src/main/java/org/apache/directory/shared/ldap/schema/registries/ImmutableNameFormRegistry.java:149-179 | register, renameSchema, unregister and unregisterSchemaElements on a view are refused with NO_SUCH_OPERATION |
| ImmutableRegistries.CloneOfViewFails | ldap/src/main/java/org/apache/directory/shared/ldap/schema/registries/ImmutableLdapSyntaxRegistry.java:57-60 | cloning a view casts the wrapped registry's clone to a view, which always fails |
| ImmutableRegistries.Clone | ldap/src/main/java/org/apache/directory/shared/ldap/schema/registries/ImmutableLdapSyntaxRegistry.java:57-60 | a modifiable registry clones to itself, and only a modifiable registry clones without an exception |
| ImmutableRegistries.CloneCorrected | ldap/src/main/java/org/apache/directory/shared/ldap/schema/registries/ImmutableNameFormRegistry.java:59-62 | the clone of a view succeeds and is again a view |
| ImmutableRegistries.CloneCorrectedAnswersAlike | ldap/src/main/java/org/apache/directory/shared/ldap/schema/registries/ImmutableNameFormRegistry.java:59-62 | the corrected clone is backed by the same tables, so it answers every query as the original |
| AddRequestImpl.WithType | ldap/model/src/main/java/org/apache/directory/shared/ldap/model/message/AddRequestImpl.java:70-82 | the entry gains the type, with no value when it was absent, and keeps every existing attribute as it was |
| AddRequestImpl.WithValue | ldap/model/src/main/java/org/apache/directory/shared/ldap/model/message/AddRequestImpl.java:99-124 | the attribute then holds the value and all it held before, nothing else, and at most one value more |
| AddRequestImpl.WithTypeIdempotent | ldap/model/src/main/java/org/apache/directory/shared/ldap/model/message/AddRequestImpl.java:70-82 | adding the same attribute type twice is adding it once |
| AddRequestImpl.AddRequestImpl.constructor | ldap/model/src/main/java/org/apache/directory/shared/ldap/model/message/AddRequestImpl.java:58-62 | a new request has message id -1, an empty entry with no DN, no current attribute and no response |
| AddRequestImpl.AddRequestImpl.AddAttributeType | ldap/model/src/main/java/org/apache/directory/shared/ldap/model/message/AddRequestImpl.java:70-82 | a null entry is a null dereference with no change; otherwise the type is in the entry (new ones with no value) and becomes the current attribute |
| AddRequestImpl.AddRequestImpl.GetCurrentAttributeType | ldap/model/src/main/java/org/apache/directory/shared/ldap/model/message/AddRequestImpl.java:88-91 | the type of the current attribute, and a null dereference when there is none |
| AddRequestImpl.AddRequestImpl.AddAttributeValue | ldap/model/src/main/java/org/apache/directory/shared/ldap/model/message/AddRequestImpl.java:99-124 | with no current attribute it is a null dereference; otherwise the value goes to the current attribute, and the entry gains it exactly when that attribute is still the one the entry holds |
| AddRequestImpl.AddRequestImpl.GetEntryDn | ldap/model/src/main/java/org/apache/directory/shared/ldap/model/message/AddRequestImpl.java:136-139 | the entry's DN, and a null dereference for a null entry |
| AddRequestImpl.AddRequestImpl.SetEntryDn | ldap/model/src/main/java/org/apache/directory/shared/ldap/model/message/AddRequestImpl.java:145-150 | the entry's DN becomes the given one with its attributes kept; a null entry is a null dereference with no change |
| AddRequestImpl.AddRequestImpl.SetEntry | ldap/model/src/main/java/org/apache/directory/shared/ldap/model/message/AddRequestImpl.java:165-170 | the entry becomes the given one and the current attribute is no longer the entry's |
| AddRequestImpl.AddRequestImpl.SetMessageId | ldap/model/src/main/java/org/apache/directory/shared/ldap/model/message/AddRequestImpl.java:176-181 | the message id becomes the given one |
| AddRequestImpl.AddRequestImpl.GetResultResponse | ldap/model/src/main/java/org/apache/directory/shared/ldap/model/message/AddRequestImpl.java:232-240 | the first call creates an AddResponse with the request's message id and remembers it; later calls return that same object |
| AddRequestImpl.SetThenGetEntryDn | ldap/model/src/main/java/org/apache/directory/shared/ldap/model/message/AddRequestImpl.java:136-150 | reading the DN back after setting it gives the DN that was set |
| AddRequestImpl.ValueAfterSetEntry | ldap/model/src/main/java/org/apache/directory/shared/ldap/model/message/AddRequestImpl.java:99-170 | after setEntry, adding a value to the attribute still current succeeds but leaves the new entry as it was given |
| AddRequestImpl.AddRequestImpl.Equals | ldap/model/src/main/java/org/apache/directory/shared/ldap/model/message/AddRequestImpl.java:255-285 | the same object is equal; otherwise equal requests have the same message id, and a null entry equals only a null entry (other entries are compared with `Entry.equals`) |
| BindRequestImpl.HashFoldIsPolynomial | ldap/model/src/main/java/org/apache/directory/shared/ldap/model/message/BindRequestImpl.java:157-165 | the 32-bit wrapping loop `h = h * 31 + b` gives the wrapped value of the unbounded polynomial of the signed bytes |
| BindRequestImpl.SignedBytes | ldap/model/src/main/java/org/apache/directory/shared/ldap/model/message/BindRequestImpl.java:161-163 | every byte enters the hash as its signed Java value |
| BindRequestImpl.SameBind | ldap/model/src/main/java/org/apache/directory/shared/ldap/model/message/BindRequestImpl.java:359-433 | equal requests have the same message id and credentials content, both or neither have an empty name, and both or neither a null-or-empty DN |
| BindRequestImpl.SameBindIsEquivalence | ldap/model/src/main/java/org/apache/directory/shared/ldap/model/message/BindRequestImpl.java:359-433 | equals is reflexive, symmetric and transitive whenever `Dn.equals` is |
| BindRequestImpl.NullAndEmptyAlike | ldap/model/src/main/java/org/apache/directory/shared/ldap/model/message/BindRequestImpl.java:388-430 | a null and an empty name, and a null and an empty DN, are not told apart, while a null name differs from a non-empty one |
| BindRequestImpl.HashOfPlain | ldap/model/src/main/java/org/apache/directory/shared/ldap/model/message/BindRequestImpl.java:440-452 | a default request with message hash 0 hashes to -1997338283 |
| BindRequestImpl.HashOfMechanismA | ldap/model/src/main/java/org/apache/directory/shared/ldap/model/message/BindRequestImpl.java:440-452 | the same request with SASL mechanism "a" hashes to -1996861722 |
| BindRequestImpl.HashOfNonBmpName | ldap/model/src/main/java/org/apache/directory/shared/ldap/model/message/BindRequestImpl.java:446-447 | a string holding U+1F600 hashes over its surrogate pair 0xD83D, 0xDE00, to 1772899 |
| BindRequestImpl.Utf16 | ldap/model/src/main/java/org/apache/directory/shared/ldap/model/message/BindRequestImpl.java:446-447 | a character of the Basic Multilingual Plane is one code unit; any other is a high and a low surrogate that decode back to it |
| BindRequestImpl.CodeUnits | ldap/model/src/main/java/org/apache/directory/shared/ldap/model/message/BindRequestImpl.java:446-447 | a string has between one and two 16-bit code units per character, and a string within the Basic Multilingual Plane has exactly its characters as code units |
| BindRequestImpl.HashCodeAsWritten | ldap/model/src/main/java/org/apache/directory/shared/ldap/model/message/BindRequestImpl.java:440-452 | the hash as written is a 32-bit int, with strings hashed over their UTF-16 code units (its values on two requests that equals accepts are given by HashOfPlain and HashOfMechanismA) |
| BindRequestImpl.EqualRequestsHashApart | ldap/model/src/main/java/org/apache/directory/shared/ldap/model/message/BindRequestImpl.java:440-452 | two requests that equals accepts hash differently, since hashCode mixes in the mechanism that equals ignores |
| BindRequestImpl.HashCode | ldap/model/src/main/java/org/apache/directory/shared/ldap/model/message/BindRequestImpl.java:440-452 | the hash over the fields equals compares, a 32-bit int |
| BindRequestImpl.EqualRequestsHashAlike | ldap/model/src/main/java/org/apache/directory/shared/ldap/model/message/BindRequestImpl.java:359-452 | with the hash over the compared fields only, equal requests hash alike |
| BindRequestImpl.Copy | ldap/model/src/main/java/org/apache/directory/shared/ldap/model/message/BindRequestImpl.java:148-149 | a fresh array holding the same bytes |
| BindRequestImpl.Hash | ldap/model/src/main/java/org/apache/directory/shared/ldap/model/message/BindRequestImpl.java:157-165 | the loop computes the wrapped fold of the signed bytes |
| BindRequestImpl.BindRequestImpl.constructor | ldap/model/src/main/java/org/apache/directory/shared/ldap/model/message/BindRequestImpl.java:83-87 | a new request is simple, version 3, with message id -1 and no name, DN, credentials, mechanism or response |
| BindRequestImpl.BindRequestImpl.SetCredentials | ldap/model/src/main/java/org/apache/directory/shared/ldap/model/message/BindRequestImpl.java:144-172 | a null array clears the credentials and their hash; otherwise a fresh copy is kept and its hash is the wrapped polynomial of its signed bytes |
| BindRequestImpl.BindRequestImpl.SetCredentialsText | ldap/model/src/main/java/org/apache/directory/shared/ldap/model/message/BindRequestImpl.java:135-138 | the credentials become a fresh array of the text's UTF-8 bytes |
| BindRequestImpl.BindRequestImpl.SetSaslMechanism | ldap/model/src/main/java/org/apache/directory/shared/ldap/model/message/BindRequestImpl.java:187-193 | the mechanism is stored and the request is no longer simple |
| BindRequestImpl.BindRequestImpl.SetSimple | ldap/model/src/main/java/org/apache/directory/shared/ldap/model/message/BindRequestImpl.java:115-120 | the simple flag becomes the given one |
| BindRequestImpl.BindRequestImpl.SetVersion3 | ldap/model/src/main/java/org/apache/directory/shared/ldap/model/message/BindRequestImpl.java:268-273 | the version-3 flag becomes the given one |
| BindRequestImpl.BindRequestImpl.SetMessageId | ldap/model/src/main/java/org/apache/directory/shared/ldap/model/message/BindRequestImpl.java:279-284 | the message id becomes the given one |
| BindRequestImpl.BindRequestImpl.SetName | ldap/model/src/main/java/org/apache/directory/shared/ldap/model/message/BindRequestImpl.java:208-223 | the name is stored as given, null included; the DN becomes its parse, or null when it does not parse, and for a null name what `new Dn(null)` gives, passed in |
| BindRequestImpl.BindRequestImpl.SetDn | ldap/model/src/main/java/org/apache/directory/shared/ldap/model/message/BindRequestImpl.java:238-244 | the DN is stored; a null DN is then a null dereference with the name kept, otherwise the name becomes the DN's string form |
| BindRequestImpl.BindRequestImpl.GetResultResponse | ldap/model/src/main/java/org/apache/directory/shared/ldap/model/message/BindRequestImpl.java:334-342 | the first call creates a BindResponse with the request's message id and remembers it; later calls return that same object |
| BindRequestImpl.BindRequestImpl.Abandon | ldap/model/src/main/java/org/apache/directory/shared/ldap/model/message/BindRequestImpl.java:349-352 | always an UnsupportedOperationException |
| BindRequestImpl.BindRequestImpl.Equals | ldap/model/src/main/java/org/apache/directory/shared/ldap/model/message/BindRequestImpl.java:359-433 | the same object is equal; a different object that is equal has the same message id |
| BindRequestImpl.BindRequestImpl.HashCodeOf | ldap/model/src/main/java/org/apache/directory/shared/ldap/model/message/BindRequestImpl.java:440-452 | the hash from the cached credentials hash is HashCodeAsWritten of the request's state, strings folded over their UTF-16 code units as `String.hashCode` does |
| BindRequestImpl.CredentialsAreCopied | ldap/model/src/main/java/org/apache/directory/shared/ldap/model/message/BindRequestImpl.java:144-150 | writing to the caller's array after setCredentials leaves the stored credentials as they were |
| AbstractAbandonableRequest.Reversed | ldap/model/src/main/java/org/apache/directory/shared/ldap/model/message/AbstractAbandonableRequest.java:69-70 | the observers are notified newest first: position i holds the listener added i-th from the end |
| AbstractAbandonableRequest.ReversedCountsEach | ldap/model/src/main/java/org/apache/directory/shared/ldap/model/message/AbstractAbandonableRequest.java:69-70 | every registered listener is notified exactly as many times as it was added |
| AbstractAbandonableRequest.AbstractAbandonableRequest.constructor | ldap/model/src/main/java/org/apache/directory/shared/ldap/model/message/AbstractAbandonableRequest.java:51-54 | a new request is not abandoned and has no listener |
| AbstractAbandonableRequest.AbstractAbandonableRequest.Abandon | ldap/model/src/main/java/org/apache/directory/shared/ldap/model/message/AbstractAbandonableRequest.java:57-72 | the first call sets the flag, notifies every registered listener once (newest first) and drops them; later calls change nothing; no listener hears anything before |
| AbstractAbandonableRequest.AbstractAbandonableRequest.IsAbandoned | ldap/model/src/main/java/org/apache/directory/shared/ldap/model/message/AbstractAbandonableRequest.java:75-78 | while the request is not abandoned no listener has been told anything |
| AbstractAbandonableRequest.AbstractAbandonableRequest.AddAbandonListener | ldap/model/src/main/java/org/apache/directory/shared/ldap/model/message/AbstractAbandonableRequest.java:84-100 | the listener is appended to the observers and the request itself returned |
| AbstractAbandonableRequest.AbandonLifecycle | ldap/model/src/main/java/org/apache/directory/shared/ldap/model/message/AbstractAbandonableRequest.java:57-100 | listeners added, then two abandons, then a latecomer: each early listener hears once and the latecomer never |
| ObjectClassHolder.TypeName | ldap/schema/converter/src/main/java/org/apache/directory/shared/converter/schema/ObjectClassHolder.java:169 | the name of a class type is a non-empty single-line word |
| ObjectClassHolder.TypeLines | ldap/schema/converter/src/main/java/org/apache/directory/shared/converter/schema/ObjectClassHolder.java:166-170 | at most one type line, and none exactly for a structural class |
| ObjectClassHolder.JoinLinesAppend | ldap/schema/converter/src/main/java/org/apache/directory/shared/converter/schema/ObjectClassHolder.java:153-196 | appending two runs of lines is appending their texts |
| ObjectClassHolder.SplitJoin | ldap/schema/converter/src/main/java/org/apache/directory/shared/converter/schema/ObjectClassHolder.java:153-196 | lines without a line break, joined with line ends and split again, come back as they were |
| ObjectClassHolder.LdifLinesJoined | ldap/schema/converter/src/main/java/org/apache/directory/shared/converter/schema/ObjectClassHolder.java:157-188 | the four parts appended one after another are the join of all their lines |
| ObjectClassHolder.LdifReadsBack | ldap/schema/converter/src/main/java/org/apache/directory/shared/converter/schema/ObjectClassHolder.java:151-197 | read back line by line, the LDIF is the head's lines, one line per superior, the type line when not structural, one per mandatory and one per optional attribute, each in list order |
| ObjectClassHolder.AppendLines | ldap/schema/converter/src/main/java/org/apache/directory/shared/converter/schema/ObjectClassHolder.java:158-188 | each loop appends one prefixed line per element, in order |
| ObjectClassHolder.ObjectClassHolder.constructor | ldap/schema/converter/src/main/java/org/apache/directory/shared/converter/schema/ObjectClassHolder.java:61-64 | a new holder has its OID, no superiors, must or may attributes, no extensions, and is structural |
| ObjectClassHolder.ObjectClassHolder.SetSuperiors | ldap/schema/converter/src/main/java/org/apache/directory/shared/converter/schema/ObjectClassHolder.java:81-84 | the superiors become the given list |
| ObjectClassHolder.ObjectClassHolder.SetMust | ldap/schema/converter/src/main/java/org/apache/directory/shared/converter/schema/ObjectClassHolder.java:100-103 | the mandatory attributes become the given list |
| ObjectClassHolder.ObjectClassHolder.SetMay | ldap/schema/converter/src/main/java/org/apache/directory/shared/converter/schema/ObjectClassHolder.java:119-122 | the optional attributes become the given list |
| ObjectClassHolder.ObjectClassHolder.SetClassType | ldap/schema/converter/src/main/java/org/apache/directory/shared/converter/schema/ObjectClassHolder.java:138-141 | the class type becomes the given one |
| ObjectClassHolder.ObjectClassHolder.ToString | ldap/schema/converter/src/main/java/org/apache/directory/shared/converter/schema/ObjectClassHolder.java:203-206 | the holder prints as its OID |
| ObjectClassHolder.ObjectClassHolder.ToLdif | ldap/schema/converter/src/main/java/org/apache/directory/shared/converter/schema/ObjectClassHolder.java:151-197 | a failing head is an LdapException; otherwise the head followed by the superior, type, must and may lines, and nothing from the extensions |
| ObjectClassHolder.ObjectClassHolder.ToLdifCorrected | ldap/schema/converter/src/main/java/org/apache/directory/shared/converter/schema/ObjectClassHolder.java:151-197 | as ToLdif, with the extensions' text appended when there are extensions |
| ObjectClassHolder.ExtensionsIgnored | ldap/schema/converter/src/main/java/org/apache/directory/shared/converter/schema/ObjectClassHolder.java:190-194 | changing the extensions does not change the LDIF as written |
| DefaultSchemaManager.StripOptions | ldap/schema/data/src/main/java/org/apache/directory/shared/ldap/schemamanager/impl/DefaultSchemaManager.java:1601-1613 | the longest prefix without ';': the text before the first ';', or all of it when there is none |
| DefaultSchemaManager.StripOptionsIdempotent | ldap/schema/data/src/main/java/org/apache/directory/shared/ldap/schemamanager/impl/DefaultSchemaManager.java:1601-1613 | stripping twice is stripping once |
| DefaultSchemaManager.StripOptionsDropsOptions | ldap/schema/data/src/main/java/org/apache/directory/shared/ldap/schemamanager/impl/DefaultSchemaManager.java:1601-1613 | a name followed by ';' and any options strips to the name |
| DefaultSchemaManager.LookupKey | ldap/schema/data/src/main/java/org/apache/directory/shared/ldap/schemamanager/impl/DefaultSchemaManager.java:1619-1624 | the looked-up key never holds an option |
| DefaultSchemaManager.LookupAttributeTypeRegistry | ldap/schema/data/src/main/java/org/apache/directory/shared/ldap/schemamanager/impl/DefaultSchemaManager.java:1619-1624 | the attribute type found under the lower-cased, trimmed, option-free key, and an LdapException exactly when there is none |
| DefaultSchemaManager.LookupsAgreeWithoutOptions | ldap/schema/data/src/main/java/org/apache/directory/shared/ldap/schemamanager/impl/DefaultSchemaManager.java:1619-1640 | for an OID without options, lookupAttributeTypeRegistry succeeds exactly when getAttributeType finds a type, and finds the same one |
| DefaultSchemaManager.GetAttributeType | ldap/schema/data/src/main/java/org/apache/directory/shared/ldap/schemamanager/impl/DefaultSchemaManager.java:1630-1640 | for an OID without options, a type is found exactly when lookupAttributeTypeRegistry succeeds |
| DefaultSchemaManager.IsEnabled | ldap/schema/data/src/main/java/org/apache/directory/shared/ldap/schemamanager/impl/DefaultSchemaManager.java:2261-2264 | only a non-null schema can be enabled |
| DefaultSchemaManager.IsDisabled | ldap/schema/data/src/main/java/org/apache/directory/shared/ldap/schemamanager/impl/DefaultSchemaManager.java:2241-2244 | only a non-null schema can be disabled, and a disabled schema is not enabled |
| DefaultSchemaManager.EnabledOrDisabled | ldap/schema/data/src/main/java/org/apache/directory/shared/ldap/schemamanager/impl/DefaultSchemaManager.java:2241-2264 | a null schema is neither enabled nor disabled; any other is exactly one of the two |
| DefaultSchemaManager.TwoSchemaCycleUnranked | ldap/schema/data/src/main/java/org/apache/directory/shared/ldap/schemamanager/impl/DefaultSchemaManager.java:1182-1194 | two schemas that depend on each other admit no rank, so the recursion of loadDepsFirst never ends on them |
| DefaultSchemaManager.DepsFirstOrder | ldap/schema/data/src/main/java/org/apache/directory/shared/ldap/schemamanager/impl/DefaultSchemaManager.java:1138-1145 | the corrected walk: a known schema comes last in its order, every name in the order is a known schema off the current path, and an unknown name gives an empty order |
| DefaultSchemaManager.DepsFirstOrderAll | ldap/schema/data/src/main/java/org/apache/directory/shared/ldap/schemamanager/impl/DefaultSchemaManager.java:1182-1194 | the dependencies' orders in turn; every name in them is a known schema off the current path |
| DefaultSchemaManager.AcyclicOrdered | ldap/schema/data/src/main/java/org/apache/directory/shared/ldap/schemamanager/impl/DefaultSchemaManager.java:1138-1145 | with an acyclic ranking the corrected walk never reports a cycle |
| DefaultSchemaManager.AcyclicOrderedAll | ldap/schema/data/src/main/java/org/apache/directory/shared/ldap/schemamanager/impl/DefaultSchemaManager.java:1182-1194 | the same for a list of dependencies ranked below the path |
| DefaultSchemaManager.CycleReportedIsReal | ldap/schema/data/src/main/java/org/apache/directory/shared/ldap/schemamanager/impl/DefaultSchemaManager.java:1138-1145 | a cycle the corrected walk reports rules out every acyclic ranking |
| DefaultSchemaManager.TwoSchemaCycleReported | ldap/schema/data/src/main/java/org/apache/directory/shared/ldap/schemamanager/impl/DefaultSchemaManager.java:1138-1145 | the corrected walk reports the two-schema cycle at the schema it started from |
| DefaultSchemaManager.AcyclicKept | ldap/schema/data/src/main/java/org/apache/directory/shared/ldap/schemamanager/impl/DefaultSchemaManager.java:731-742 | enabling or disabling schemas keeps the dependency graph acyclic |
| DefaultSchemaManager.DependentNotRecorded | ldap/schema/data/src/main/java/org/apache/directory/shared/ldap/schemamanager/impl/DefaultSchemaManager.java:628-637 | a dependency that already has dependents does not gain the newly loaded schema |
| DefaultSchemaManager.Recorded | ldap/schema/data/src/main/java/org/apache/directory/shared/ldap/schemamanager/impl/DefaultSchemaManager.java:624-639 | every dependency gains a key; an existing set is kept as it was, and only a dependency seen for the first time gets the set holding the schema |
| DefaultSchemaManager.RecordedCorrected | ldap/schema/data/src/main/java/org/apache/directory/shared/ldap/schemamanager/impl/DefaultSchemaManager.java:624-639 | with the name added to the existing set, every dependency lists the schema and every other entry is kept |
| DefaultSchemaManager.Removed | ldap/schema/data/src/main/java/org/apache/directory/shared/ldap/schemamanager/impl/DefaultSchemaManager.java:624-639 | unrecording takes the schema out of each dependency's set and keeps every key |
| DefaultSchemaManager.RecordThenRemoveCorrected | ldap/schema/data/src/main/java/org/apache/directory/shared/ldap/schemamanager/impl/DefaultSchemaManager.java:624-639 | with the corrected recording, recording and then unrecording a schema leaves the existing sets as they were |
| DefaultSchemaManager.RecordDependences | ldap/schema/data/src/main/java/org/apache/directory/shared/ldap/schemamanager/impl/DefaultSchemaManager.java:624-639 | the loop over one schema's dependencies gives Recorded, the recording as written |
| DefaultSchemaManager.DefaultSchemaManager.constructor | ldap/schema/data/src/main/java/org/apache/directory/shared/ldap/schemamanager/impl/DefaultSchemaManager.java:155-164 | a new manager is strict, with no errors and no dependences |
| DefaultSchemaManager.DefaultSchemaManager.IsRelaxed | ldap/schema/data/src/main/java/org/apache/directory/shared/ldap/schemamanager/impl/DefaultSchemaManager.java:2181-2184 | relaxed exactly when the flag holds RELAXED, which a new manager does not |
| DefaultSchemaManager.DefaultSchemaManager.IsStrict | ldap/schema/data/src/main/java/org/apache/directory/shared/ldap/schemamanager/impl/DefaultSchemaManager.java:2192-2195 | strict exactly when not relaxed |
| DefaultSchemaManager.DefaultSchemaManager.SetRelaxed | ldap/schema/data/src/main/java/org/apache/directory/shared/ldap/schemamanager/impl/DefaultSchemaManager.java:2211-2214 | the manager is relaxed afterwards |
| DefaultSchemaManager.DefaultSchemaManager.SetStrict | ldap/schema/data/src/main/java/org/apache/directory/shared/ldap/schemamanager/impl/DefaultSchemaManager.java:2221-2224 | the manager is strict afterwards |
| DefaultSchemaManager.DefaultSchemaManager.LoadInto | ldap/schema/data/src/main/java/org/apache/directory/shared/ldap/schemamanager/impl/DefaultSchemaManager.java:681-751 | null is refused; a loaded schema is accepted with nothing changed; a disabled one is refused unless the registries accept disabled schemas; a loaded enabled schema has every dependency known and loaded or enabled; no schema is added to or removed from the loader and none is left newly disabled; when the dependencies are ranked, the schema is loaded last and only schemas ranking below it are loaded besides |
| DefaultSchemaManager.DefaultSchemaManager.LoadDependencies | ldap/schema/data/src/main/java/org/apache/directory/shared/ldap/schemamanager/impl/DefaultSchemaManager.java:714-744 | an unknown dependency is an LdapProtocolErrorException; on success every dependency is present; when the dependencies are ranked, nothing ranking at or above the schema is loaded |
| DefaultSchemaManager.DefaultSchemaManager.LoadDependency | ldap/schema/data/src/main/java/org/apache/directory/shared/ldap/schemamanager/impl/DefaultSchemaManager.java:718-742 | an enabled dependency is left as it is; a disabled one is enabled and loaded, and disabled again when that fails; on success it is present |
| DefaultSchemaManager.DefaultSchemaManager.UnloadFrom | ldap/schema/data/src/main/java/org/apache/directory/shared/ldap/schemamanager/impl/DefaultSchemaManager.java:761-784 | null is refused; a schema not loaded is accepted with nothing done; a loaded enabled schema is unloaded and a loaded disabled one stays |
| DefaultSchemaManager.DefaultSchemaManager.LoadDepsFirst | ldap/schema/data/src/main/java/org/apache/directory/shared/ldap/schemamanager/impl/DefaultSchemaManager.java:1145-1199 | null, a refused disabled schema or a loaded one changes nothing; otherwise only the schema and schemas ranking below it are loaded, and when the schema is newly loaded it is the last one loaded |
| DefaultSchemaManager.DefaultSchemaManager.ToArray | ldap/schema/data/src/main/java/org/apache/directory/shared/ldap/schemamanager/impl/DefaultSchemaManager.java:221-242 | each name's schema from the loader, in order, or an LdapUnwillingToPerformException naming the first unknown name |
| DefaultSchemaManager.DefaultSchemaManager.Load | ldap/schema/data/src/main/java/org/apache/directory/shared/ldap/schemamanager/impl/DefaultSchemaManager.java:573-657 | no schema is true at once; a refusal or reference error on the relaxed copy changes neither the registries nor the dependences; success loads into the registries, records the dependences, leaves the registries strict, keeps the errors of the last reference build and leaves every schema held by the loader |
| DefaultSchemaManager.DefaultSchemaManager.LoadAllInto | ldap/schema/data/src/main/java/org/apache/directory/shared/ldap/schemamanager/impl/DefaultSchemaManager.java:593-602 | on success every schema is loaded into the copy |
| DefaultSchemaManager.DefaultSchemaManager.ApplyLoad | ldap/schema/data/src/main/java/org/apache/directory/shared/ldap/schemamanager/impl/DefaultSchemaManager.java:618-643 | the registries only grow, every schema is held by the loader, and the dependences become those recorded for each schema in turn |
| DefaultSchemaManager.DefaultSchemaManager.ApplyOne | ldap/schema/data/src/main/java/org/apache/directory/shared/ldap/schemamanager/impl/DefaultSchemaManager.java:620-642 | the schema is held by the loader and loaded, and its dependences are recorded as written |
| Ber.IntBytesRoundTrip | ldap/codec/core/src/main/java/org/apache/directory/shared/ldap/codec/decorators/AbandonRequestDecorator.java:136 | the contents octets written for an integer read back, as two's complement, to the integer |
| Ber.IntNbBytesMinimal | ldap/codec/core/src/main/java/org/apache/directory/shared/ldap/codec/decorators/AbandonRequestDecorator.java:158 | the octet count of an integer is the fewest in which its two's complement fits |
| Ber.IntNbBytesOfInt | ldap/extras/codec/src/main/java/org/apache/directory/shared/ldap/extras/extended/ads_impl/gracefulDisconnect/GracefulDisconnect.java:121-126 | for a Java int the count is 1, 2, 3 or 4 by the range the value lies in |
| Ber.IntNbBytesOfLong | ldap/codec/core/src/main/java/org/apache/directory/shared/ldap/codec/controls/search/entryChange/EntryChangeDecorator.java:121 | for a Java long the count is between 1 and 8 |
| Ber.LenBytesRoundTrip | ldap/codec/core/src/main/java/org/apache/directory/shared/ldap/codec/controls/search/entryChange/EntryChangeDecorator.java:146 | a definite length written in the short or long form reads back to the same length and octet count |
| Ber.LenBytesMinimal | ldap/codec/core/src/main/java/org/apache/directory/shared/ldap/codec/controls/search/entryChange/EntryChangeDecorator.java:125 | a long-form length gives its octet count in its first octet and has no leading zero octet |
| Ber.TlvRoundTrip | ldap/codec/core/src/main/java/org/apache/directory/shared/ldap/codec/controls/search/entryChange/EntryChangeDecorator.java:154 | a TLV written and read back gives the same tag, value and remaining octets |
| Ber.IntegerTlvRoundTrip | ldap/codec/core/src/main/java/org/apache/directory/shared/ldap/codec/controls/search/entryChange/EntryChangeDecorator.java:159 | an INTEGER TLV reads back to its tag and contents, which stand for the value |
| Ber.DecodeOctetStringsCons | ldap/extras/codec/src/main/java/org/apache/directory/shared/ldap/extras/extended/ads_impl/gracefulDisconnect/GracefulDisconnect.java:136-137 | a run of OCTET STRING TLVs reads back one string at a time, in order |
| Ber.ParseInteger | ldap/codec/core/src/main/java/org/apache/directory/shared/ldap/codec/actions/searchRequest/StoreSearchRequestTimeLimit.java:82 | the integer decoder accepts one to four octets whose value lies within the bounds, and exactly those |
| Ber.ParseIntBytes | ldap/codec/core/src/main/java/org/apache/directory/shared/ldap/codec/actions/searchRequest/StoreSearchRequestTimeLimit.java:82 | the contents octets of a value within the bounds decode back to the value |
| ByteBuffers.ByteBuffer.Put | ldap/codec/core/src/main/java/org/apache/directory/shared/ldap/codec/decorators/AbandonRequestDecorator.java:133-136 | octets that fit are appended at the position; octets that do not fit raise an overflow and change nothing |
| ByteBuffers.ByteBuffer.PutAll | ldap/codec/core/src/main/java/org/apache/directory/shared/ldap/codec/controls/search/entryChange/EntryChangeDecorator.java:146-159 | consecutive puts append every part when all fit, and otherwise stop at the first part that does not fit, having written the parts before it |
| ByteBuffers.EncodeOctetString | ldap/codec/core/src/main/java/org/apache/directory/shared/ldap/codec/controls/search/entryChange/EntryChangeDecorator.java:154 | an OCTET STRING TLV is appended when it fits, and an overflow is an EncoderException |
| ByteBuffers.EncodeInteger | ldap/codec/core/src/main/java/org/apache/directory/shared/ldap/codec/controls/search/entryChange/EntryChangeDecorator.java:159 | an INTEGER TLV is appended when it fits, and an overflow is an EncoderException |
| JavaStrings.Utf8Append | ldap/model/src/main/java/org/apache/directory/shared/ldap/model/message/SearchRequestImpl.java:170 | the UTF-8 octets of two strings joined are the octets of each, joined |
| JavaStrings.TrimIdempotent | ldap/model/src/main/java/org/apache/directory/shared/ldap/model/schema/normalizers/BooleanNormalizer.java:74 | trimming twice is trimming once |
| JavaStrings.ToUpperIdempotent | ldap/model/src/main/java/org/apache/directory/shared/ldap/model/schema/normalizers/BooleanNormalizer.java:74 | upper-casing twice is upper-casing once |
| JavaStrings.DecimalRoundTrip | ldap/model/src/main/java/org/apache/directory/shared/ldap/model/message/SearchRequestImpl.java:524 | the decimal text of an integer reads back to the integer |

## Left out

- The streaming decoder itself (TLV unit, state machine, grammar transition tables) is abstracted as a container holding the message under construction and the current TLV; only the grammar actions are modelled.
- BerValue, TLV and IntegerDecoder are not part of this model; they are specified as X.690 functions, and the model relies on them meeting those functions.
- AbandonRequestDecorator.AbandonRequestDecorator.Encode: the buffer is a non-null object. The NullPointerException that a null buffer raises at the first `put` is not modelled.
- Logging is dropped everywhere, and so are the I18n message texts; errors are datatype cases.
- Unicode case mapping and trimming are ASCII-only (`JavaStrings`); full Unicode tables are not modelled.
- IntegerComparator.CompareStrings: numbers are parsed from the ASCII digits '0'..'9' only. `new BigInteger` also accepts every other Unicode decimal digit (for example ARABIC-INDIC "١٢" is 12); the model answers NumberFormatException for those strings, because the Unicode digit tables are not modelled.
- `DataOutput.writeUTF`'s 65535-byte limit is not modelled in ServerStringValue's serialisation.
- ClientStringValue and the client-side `set` path of string values are left out; only the server value is modelled.
- ServerStringValue.ServerStringValue.Equals: `AttributeType.equals` is a parameter, because the AttributeType class is not part of this model. `hashCode` and `clone` of ServerStringValue are left out.
- ServerStringValue.ServerStringValue.Deserialize: `set()` is modelled as plain assignment of the wrapped value. On the null path the normalized flag is kept and the validity flag is not reset.
- DefaultNormalizerRegistry.DefaultNormalizerRegistry.UnregisterSchemaElements: the registry's iterator is in DefaultSchemaObjectRegistry, which is not part of this model. It is modelled as a walk over the values the map held on entry, one per key, in a given order. A fail-fast iterator over the live map would stop with a ConcurrentModificationException after the first removal instead. `OID.isOID` is a parameter.
- Registries are maps from names to elements; the wider registry interfaces (iterators, OID registry) are left out.
- SetCursor: the set's iteration order is a given sequence; `Set.toArray` order is not modelled. The closed-cursor monitor is a flag.
- StoreTimeBeforeExpiration: the other PasswordPolicyResponse fields keep their defaults; they are not modelled.
- AddAttributeType: the schema check `addAttribute` may make is a parameter.
- GracefulDisconnect: the delay is a `nat`; a negative delay, which a Java `int` allows, is not modelled.
- SearchRequestImpl.SearchRequestImpl.Equals: `super.equals` is reduced to comparing message ids. `Dn.equals` and BranchNormalizedVisitor are parameters, and a filter is known only by its string form. Two requests that share one filter object would have it rewritten twice; that aliasing is not modelled.
- SearchRequestImpl: `hashCode`, `toString` beyond the time and size limit text, controls and `getResponseTypes` are left out.
- AddRequestImpl: attributes are looked up by exact type name, and the values of an attribute are a sequence appended to in a set-like way. The current attribute is a value plus a flag saying whether the entry still holds it. `setEntry` always clears that flag, even for the entry already held. Values added to a detached attribute are not kept. Controls, `hashCode` and `toString` are left out. `super.equals` is reduced to message ids, and `Entry.equals` is a parameter.
- BindRequestImpl: `toString`, controls and `getResponseType` are left out. The Dn class is not part of this model, so `new Dn(null)` in `setName(null)` is a parameter. The response's identity hash, the message's own hash and `Dn.equals` are parameters.
- AbstractAbandonableRequest: the newest-first notification order comes from `java.util.Observable`, which is not part of this model; it is modelled as the reversed listener list.
- ObjectClassHolder: `schemaToLdif` and `extensionsToLdif` of the parent holder are parameters; the other LDIF helper methods are left out.
- DefaultSchemaManager: `load(String...)` (look up each name, then load) is not a separate member; `ToArray` and `Load` cover its two steps.
- DefaultSchemaManager: `loadAllEnabled`, `cloneRegistries`, `buildReferences` and `checkRefInteg` are parameters; public `unload(Schema...)`, `loadWithDeps`, `loadDepsFirstRelaxed`, `verify`, `enable`, `disable`, `listDependentSchemaNames` and `isEnabled`/`isDisabled(String)` are left out.
- DefaultSchemaManager.DefaultSchemaManager.LoadDepsFirst: requires acyclic dependencies, given as a ghost rank. Its recursion follows the dependency names, and a cycle would make it recurse without end (see Findings). The other load members need no such requirement.
- DefaultSchemaManager: the error list is an abstract sequence; schema objects are reduced to sets of names.
- DefaultSchemaManager.Load: "every schema ends up loaded" after the second pass is not proved, because the source ignores that pass's result.
- The corrected members under Findings stand beside the as-written ones; the rest of the model keeps the behaviour as written, because it models the code.

## Findings

| source | as written | input that shows it | evidently intended | confidence | as-written member | corrected member |
|---|---|---|---|---|---|---|
| ldap/extras/codec/src/main/java/org/apache/directory/shared/ldap/extras/extended/ads_impl/gracefulDisconnect/GracefulDisconnect.java:170-171 | the delay's length octet is `TLV.getNbBytes(delay)`, the count of length octets, not of contents octets | delay 300 is written `80 03 01 2C`, so a reader takes one octet of the next field as part of the delay | the length octet is the number of contents octets, `80 02 01 2C` | not executed | GracefulDisconnect.DelayOf300Misread | GracefulDisconnect.DelayTlvRoundTrip |
| ldap/extras/codec/src/main/java/org/apache/directory/shared/ldap/extras/extended/ads_impl/certGeneration/CertGenerationObject.java:88 | the SEQUENCE length is written as `BerValue.getBytes(requestLength)`, the INTEGER contents octets | a 120-octet target DN makes the length 128, written `30 00 80`; a reader sees an empty SEQUENCE | the length octets of X.690 section 8.1.3, `30 81 80` | not executed | CertGenerationObject.OuterLengthMisread | CertGenerationObject.CertGenerationRoundTrip |
| ldap/extras/codec/src/main/java/org/apache/directory/shared/ldap/extras/extended/ads_impl/certGeneration/CertGenerationObject.java:67-77 | each field's length octets are counted with `BerValue.getNbBytes(len)` | a field of 256 octets is counted with 2 length octets but written with 3, so the buffer overflows | `TLV.getNbBytes(len)` | not executed | CertGenerationObject.FieldOf256Overflows | CertGenerationObject.FieldsRoundTrip |
| ldap/model/src/main/java/org/apache/directory/shared/ldap/model/message/SearchRequestImpl.java:440-464 | `equals` checks only that each of this request's attributes is among the other's | attributes `["a","a"]` equal `["a","b"]`, but not the other way round | equal as multisets, so `equals` is symmetric | not executed | SearchRequestImpl.AttributesMatchAsymmetric | SearchRequestImpl.AttributesMatchCorrectedSymmetric |
| ldap/src/main/java/org/apache/directory/shared/ldap/schema/registries/DefaultNormalizerRegistry.java:82-108 | `register` stores aliases lower-cased and trimmed, `unregister` removes them as given | alias `"T"` is stored under `"t"`, which `unregister` leaves behind | remove the same keys `register` added | not executed | DefaultNormalizerRegistry.MixedCaseAliasExample | DefaultNormalizerRegistry.RegisterThenUnregisterCorrected |
| ldap/src/main/java/org/apache/directory/shared/ldap/schema/registries/ImmutableLdapSyntaxRegistry.java:57-60 | `clone` casts the wrapped registry's clone to the immutable view class | any view: the clone of the wrapped registry is not a view, so the cast throws `ClassCastException` | wrap the clone in a new view | not executed | ImmutableRegistries.CloneOfViewFails | ImmutableRegistries.CloneCorrectedAnswersAlike |
| ldap/model/src/main/java/org/apache/directory/shared/ldap/model/message/BindRequestImpl.java:440-452 | `hashCode` mixes in the SASL mechanism and the response, which `equals` ignores | a simple bind with no mechanism and the same request with mechanism `"a"` are equal but hash to -1997338283 and -1996861722 | hash only what `equals` compares | not executed | BindRequestImpl.EqualRequestsHashApart | BindRequestImpl.EqualRequestsHashAlike |
| ldap/schema/converter/src/main/java/org/apache/directory/shared/converter/schema/ObjectClassHolder.java:190-194 | the text `extensionsToLdif` returns is discarded | any object class with extensions: its LDIF is the same as without them | append the extensions' LDIF to the entry | not executed | ObjectClassHolder.ExtensionsIgnored | ObjectClassHolder.ObjectClassHolder.ToLdifCorrected |
| ldap/schema/data/src/main/java/org/apache/directory/shared/ldap/schemamanager/impl/DefaultSchemaManager.java:628-637 | when a dependency already has dependents, the set is put back without the schema being loaded | schema `b` loaded after `a` when `a` already has a dependent: `b` is not recorded | add the schema to the existing set | not executed | DefaultSchemaManager.DependentNotRecorded | DefaultSchemaManager.RecordThenRemoveCorrected |
| ldap/schema/data/src/main/java/org/apache/directory/shared/ldap/schemamanager/impl/DefaultSchemaManager.java:1142-1145 | the documentation promises an exception on a dependency cycle, but `loadDepsFirst` keeps no record of the schemas it is visiting | two enabled schemas `a` and `b` that depend on each other: the recursion goes a, b, a, b, … until the stack overflows | report the cycle with an exception | not executed | DefaultSchemaManager.TwoSchemaCycleUnranked | DefaultSchemaManager.CycleReportedIsReal |
