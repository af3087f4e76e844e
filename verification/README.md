# Depot: a verified model

Depot is a binary cache for Nix. Pushers begin a build on a ref of a project, register the metadata of its store
paths, upload the archives (NARs) that neither the project's storage nor an upstream cache has, and finalize the build,
which publishes it to the ref. Pins and retention rules choose what to keep; a garbage collector closes the kept paths
over their references, tombstones the objects of all other paths, and deletes them after a grace period. Readers get
signed metadata documents (narinfos) and NARs through the view of a project or of all public projects.

This project models that behaviour in Dafny 4.11 and proves what it promises. `dafny verify dfyconfig.toml` checks all of it.

## How it is built

Three layers meet in one state machine.

* **Values.** `Tables` holds the rows of the database and the contents of the backends as one value, `World`.
  `Ingest`, `Retention`, `Liveness`, `Collection` and `ReadStore` say what every request and every collector pass does
  to a world, with the same branches, order of checks and errors as the code; a request that stops with an error keeps what
  it wrote before.
* **Objects.** `Database.SqliteDatabase` has a field for each table, and its methods update them in place; the classes in
  `Services` (collector, ingest service, object store, backends) loop over documents, refs, rows and backends as the code
  does. Every method is proved to take the fields to the world that the value layer gives.
  `Server.DepotServer.Handle` puts them together: handling an event is one step of the state machine, and handling a
  schedule of events from the start makes a run (`Server.DepotServer.HandleAll`). A request that fails at a backend before
  anything is written changes nothing and is no event.
* **Runs.** `Runs` takes requests and passes as events on one strictly increasing clock. A run is a sequence of
  worlds linked by steps from a world without rows, and every schedule of events is one. The theorems about runs quantify over
  every run, whatever other builds, pins, policies and passes occur in it.

The hash, path and document codecs stand below that: bytes, nix-base32, base64, hash spellings, object paths, the narinfo
parser and renderer with their round trip, signed fingerprints, publish validation. `Multipart` and `Authz` are separate.

What these functions say is also stated without them, in the columns of the rows, in letters or in numbers: what a view shows (`Visibility`), which builds are kept (`KeptBuilds`, `Policies`), what
is live (`Reachability`), what a pass leaves (`Passes`), what a request records and answers (`Requests`, `Recording`), how
any text is read (`NarInfoText`, `TextLaws`), what is served (`ServingLaws`), what spellings and paths look like
(`HashLaws`, `ObjectPathLaws`), why a document is refused (`PublishLaws`), and who is admitted (the end of `Authz`).

## Main results

* *Served refs are protected* in the view of their project (`ServedRefs.ServedRefsAreProtected`) and of all public
  projects (`ServedRefs.PublicRefsAreProtected`), down to the bytes, and so are their documents and signatures
  (`ServedNarInfos.PublishedSignaturesStayValid`). So are pinned paths (`PinnedPaths.PinnedObjectsAreServed`,
  `PinnedPaths.PinnedPathsResolve`).
* *The collector is safe over whole runs* (`ObjectLife.CollectorIsSafe`), and its grace period is a statement about the
  history of a row and of the bytes, whichever pass removes them (`GraceHistory.DeletedAfterGrace`,
  `GraceHistory.BytesDeletedAfterGrace`). *It also collects*: what stays dead past its grace goes
  (`Reclamation.DeadIsCollected`), and rows go exactly then (`Reclamation.RowGoesExactly`). In milliseconds, with the
  default grace: not within 21599000 of being found dead, and at the latest by the first undisturbed pass 21601000 after it
  (`GraceHistory.NothingGoesWithinSixHours`, `Reclamation.DeadIsCollectedAfterSixHours`).
* *A view shows nothing else*: over every run, what no finalize published to a ref of a project and no request pinned in
  it is not visible, resolved or served there (`Visibility.ProjectShowsItsOwn`, `Visibility.NothingElseIsServed`).
* *Pushes make progress* (`PushProgress.UploadedBuildsFinalize`, `PushProgress.CleanPushesFinalize`), with the converse
  (`PushProgress.FinalizedWasAvailable`) and exact conditions for finalizing, in one world and after a run
  (`PushProgress.FinalizeSucceedsExactly`, `PushProgress.PushedBuildsFinalizeExactly`).
  A first push to an empty depot goes through and is served (`FirstPush.FirstPushIsServed`), so these theorems speak of
  runs that exist.
* *Metadata is write-once* (`Metadata.RowDecidesForever`) and links are content addresses (`Metadata.LinksCarryRegisteredUrls`).
* *Retention is exact top-k* (`Retention.RetainedExactly`), in the rules' own numbers (`KeptBuilds.RetainedInNumbers`);
  *liveness is a least fixpoint* computed by a worklist (`Liveness.LivePathHashes`, `Liveness.LiveIsLeast`).
* *Any text is read line by line*: the first bad line is the error, lines of unknown fields change nothing, and otherwise the
  values are those of the lines (`NarInfoText.BadLineFails`, `NarInfoText.OtherLinesIgnored`, `NarInfoText.GoodLinesParse`).
* *Tokens and OIDC identities get exactly what the rows grant* (`Authz.TokenForRef`, `Authz.OidcForRef`).
* *The narinfo round trip holds exactly for clean documents* (`NarInfoRoundTrip.ParseRendered`), and signatures survive
  being passed on (`ServedNarInfos.RelayedSignaturesStayValid`).
* *Nix-base32 is positional and injective* (`NixBase32.EncodeNixBase32`, `NixBase32.EncodeInjective`), and hash spellings
  agree (`NixHash.SpellingsAgree`).

Some expectations do not hold of the code as it is. Each has its exact condition, and a lemma with an input where the
condition alone does not show one; for those about runs, `Failures` builds the run from an empty depot.

* A multipart completion that is accepted but reports more than 2^63-1 bytes deletes the object it completes, although
  a published build may already serve it and its row stays (crates/depot-ingest/src/service.rs:249-276).
  `ServedRefs.StepKeepsHeldExactly` and `PushProgress.StepKeepsCovered` give the condition for one event,
  `Failures.OverlongCompletionUnserves` and `Failures.OverlongCompletionBlocksPush` the failures; the run theorems
  therefore ask that no completion lose the one object they are about.
* A build with a path and no upload left to do cannot always be finalized: a registration that stops at a later document
  leaves the earlier ones attached and asks for no upload (`Failures.HalfRegistrationStrands`). The condition is that each
  path was announced by a registration that succeeded, or its NAR is available anyway (`PushProgress.PushedBuildsFinalizeExactly`).
* On a stream of exactly 10000 parts the client uploads them all and then gives up, where the server's own loop completes
  the upload; and the client takes part sizes that the server's loop refuses (`Multipart.LoopsDisagree`).
* For OIDC identities, authorizing a project and then checking the ref admits more than authorizing the ref
  (`Authz.OidcRoutesCompared`, `Authz.OidcStepsAdmitMore`).
* A fingerprint does not determine what it covers, since an accepted path may contain commas and semicolons
  (`Samples.SampleFingerprintsCollide`, `Samples.SampleStorePathsCollide`). It fixes the references exactly up to joining
  by commas when store paths have no semicolon (`Signing.FingerprintsAgreeExactly`), so that two or more references can be
  joined into one (`Metadata.JoinedReferencesCollide`), and the whole content when references have no comma either
  (`Signing.FingerprintDetermines`).
* The store path hash test is exact for ASCII only (`NixHash.AsciiHashText`, `NixHash.WideHashText`).
* A reference, deriver or other field that the line format would cut, merge or drop does not survive rendering and parsing;
  `NarInfoRoundTrip.ParseRendered` says exactly which documents do. A store directory `/` needs no exception,
  but it contains only itself and paths that begin with two slashes (`NixHash.RootContains`).

## Model

| member | source | states |
|---|---|---|
| `NixBase32.EncodeNixBase32` | crates/depot-core/src/nix.rs:648-673 | The loop of shifts and masks computes, with no index outside the buffer, ceil(8k/5) symbols whose n-th from the right is digit (V / 32^n) mod 32 of the bytes read as a little-endian base-256 number V |
| `NixBase32.ExtractDigit` | crates/depot-core/src/nix.rs:655-668 | One round of the loop: two shifted bytes, or-ed and masked, are the digit of that position |
| `NixBase32.DecodeEncode` | crates/depot-core/src/nix.rs:648-673 | A decoder by repeated multiplication gives every byte string back |
| `NixBase32.EncodeInjective` | crates/depot-core/src/nix.rs:648-673 | Different byte strings, of whatever lengths, have different texts |
| `NixBase32.Sha256DigestText` | crates/depot-core/src/nix.rs:219-231 | The text has 52 symbols exactly for 32 bytes, all from the alphabet |
| `Base64.DecodeEncode` | crates/depot-core/src/nix.rs:287-299 | The standard padded decoder of section 4 of RFC 4648 inverts the encoder |
| `Base64.EncodeDecode` | crates/depot-core/src/nix.rs:287-299 | A text that decodes is the encoder's own spelling, so text and bytes determine each other |
| `NixHash.NormalizeRendered` | crates/depot-core/src/nix.rs:252-260 | The text of a normalised sha256 hash normalises to the hash again exactly when the digest is 52 symbols of the alphabet |
| `NixHash.SpellingNormalizes` | crates/depot-core/src/nix.rs:262-299 | Each of the five spellings of 32 bytes normalises to the nix-base32 digest of those bytes |
| `NixHash.SpellingsAgree` | crates/depot-core/src/nix.rs:252-299 | SRI text, colon text and the structured base64, default and nix32 forms of the same 32 bytes normalise to one value |
| `NixHash.SpellingsDistinguish` | crates/depot-core/src/nix.rs:252-299 | Spellings of different 32-byte strings never normalise to the same value |
| `NixHash.ParseColonText` | crates/depot-core/src/nix.rs:422-440 | A colon text is split at the first colon into algorithm, whichever it names, and digest |
| `NixHash.ParseSriText` | crates/depot-core/src/nix.rs:422-440 | A text with a hyphen and no colon is read as SRI, whichever algorithm it names before the first hyphen |
| `NixHash.NormalizeWireText` | crates/depot-core/src/nix.rs:403-415 | Sending a hash as text does not change what it normalises to |
| `NixHash.NewStoreDir` | crates/depot-core/src/nix.rs:69-85 | Accepts exactly absolute paths, names the reason otherwise, and pops trailing slashes down to the root |
| `NixHash.ExpandDisplayed` | crates/depot-core/src/nix.rs:95-123 | Displaying and expanding a path gives it back exactly when it lies strictly inside the store directory and its relative part does not begin with a slash |
| `NixHash.RootContains` | crates/depot-core/src/nix.rs:95-102 | The store directory `/` contains itself and the paths that begin with two slashes, and no other |
| `NixHash.AsciiHashText` | crates/depot-core/src/nix.rs:162-183 | An ASCII text is a store path hash exactly when it is 32 symbols of the alphabet |
| `NixHash.WideHashText` | crates/depot-core/src/nix.rs:162-183 | Beyond ASCII this fails: the length counts bytes and the symbol test looks at the low byte of a scalar value, so 16 times U+0130 passes |
| `HashLaws.SymbolsInOrder` | crates/depot-core/src/nix.rs:287-299 | The base64 symbols by their code points, Table 1 of RFC 4648 |
| `HashLaws.GroupExactly` | crates/depot-core/src/nix.rs:287-299 | Three bytes are spelled as the four digits in base 64 of their 24 bits, highest first |
| `HashLaws.AlphabetExactly` | crates/depot-core/src/nix.rs:8 | The nix-base32 symbols by their code points: digits and letters in order, without e, o, t and u |
| `HashLaws.ColonHashExactly` | crates/depot-core/src/nix.rs:252-285 | What a text with a colon normalises to, and each error |
| `HashLaws.HyphenHashExactly` | crates/depot-core/src/nix.rs:252-299 | What a text with a hyphen and no colon normalises to, and each error |
| `HashLaws.StructuredHashExactly` | crates/depot-core/src/nix.rs:262-299 | What a hash in parts normalises to, and each error |
| `HashLaws.AddressExactly` | crates/depot-core/src/nix.rs:500-521 | The text of a content address by its method: text:, fixed:, fixed:r:, fixed:git: or the method's own name |
| `HashLaws.ContainsExactly` | crates/depot-core/src/nix.rs:95-102 | A directory contains itself and what continues it after a slash |
| `HashLaws.ExpandExactly` | crates/depot-core/src/nix.rs:117-123 | A value inside the directory stands for itself, any other is appended to the directory without the slashes it begins with |
| `HashLaws.HashTextExactly` | crates/depot-core/src/nix.rs:162-183 | A store path hash is a text of 32 bytes whose scalar values modulo 256 are symbols; each error with its position |
| `HashLaws.HashOfPathExactly` | crates/depot-core/src/nix.rs:144-152 | The hash of a store path is what stands before the first hyphen after the last slash |
| `DepotPath.ParsePrinted` | crates/depot-core/src/depot_path.rs:103-155 | Parsing a printed NAR path gives back its digest and compression |
| `DepotPath.PrintParsed` | crates/depot-core/src/depot_path.rs:103-155 | A path that parses as a NAR path is the print of what was parsed, with a 52-symbol digest |
| `ObjectPathLaws.CompressionNames` | crates/depot-core/src/depot_path.rs:22-30 | Which names stand for which compression |
| `ObjectPathLaws.NarExactly` | crates/depot-core/src/depot_path.rs:82-90 | A text is the path of an archive if and only if it is nar/, 52 symbols and the suffix of the compression |
| `ObjectPathLaws.NarInfoExactly` | crates/depot-core/src/depot_path.rs:73-80 | And of a document if and only if it is 32 symbols and .narinfo |
| `ObjectPathLaws.ListingExactly` | crates/depot-core/src/depot_path.rs:92-95 | And of a listing if and only if it is 32 symbols and .ls |
| `ObjectPathLaws.LogExactly` | crates/depot-core/src/depot_path.rs:97-98 | log/, a name and .drv are a build log if and only if the name is made of the allowed characters and no two dots meet |
| `ObjectPathLaws.RealisationExactly` | crates/depot-core/src/depot_path.rs:100-101 | When a text is a realisation: what the algorithm, the digest and the output may be made of |
| `NarInfo.ParseNarInfo` | crates/depot-core/src/narinfo.rs:30-130 | The line loop over mutable slots computes the recursive reading of the text, with the same first error |
| `NarInfo.RenderWithSignatures` | crates/depot-core/src/narinfo.rs:193-244 | The buffer loops write exactly the lines of the document, references and signatures sorted, or report the hash error |
| `NarInfoRoundTrip.ParseRendered` | crates/depot-core/src/narinfo.rs:30-130 | Parsing a rendered document gives its canonical form (lists sorted, hash and CA as text, paths re-expanded) if and only if every field is clean |
| `NarInfoRoundTrip.RenderCanonical` | crates/depot-core/src/narinfo.rs:193-244 | Re-rendering the canonical form is byte-identical if and only if the digest has the length of a sha256 digest |
| `NarInfoRoundTrip.DeriverSurvives` | crates/depot-core/src/narinfo.rs:93-100 | A deriver survives display, line end and expansion exactly when it is clean |
| `NarInfoText.OtherLinesIgnored` | crates/depot-core/src/narinfo.rs:111-114 | Inserting a line with a colon and none of the nine field beginnings anywhere in any text changes nothing in what it is read to, not even the error |
| `NarInfoText.FileSizeIgnored` | crates/depot-core/src/narinfo.rs:111-114 | So FileSize lines of upstream documents, with whatever value, change nothing |
| `NarInfoText.BadLineFails` | crates/depot-core/src/narinfo.rs:30-130 | The first bad line of any text is the error: one without colon or field, a size that is no number, or a field repeated that may be there once |
| `NarInfoText.GoodLinesParse` | crates/depot-core/src/narinfo.rs:30-130 | A text without a bad line is read to the values of the lines of each field, signatures in the order of their lines, or to the first required field that no line has |
| `NarInfoText.OnlyLineOf` | crates/depot-core/src/narinfo.rs:132-143 | In such a text a field that may be there once is on one line, and the value is that line's |
| `TextLaws.LinesOfLine` | crates/depot-core/src/narinfo.rs:41-44 | A line ends at a line feed, together with a carriage return right before it |
| `TextLaws.ParseU64Exactly` | crates/depot-core/src/narinfo.rs:62-72 | A size is read exactly from its decimal spellings below 2^64, leading zeros and one plus sign allowed |
| `TextLaws.LeqExactly` | crates/depot-core/src/narinfo.rs:154-172 | Texts are ordered by their first difference, and a prefix comes first |
| `Signing.ComputeFingerprint` | crates/depot-core/src/signing.rs:182-221 | The checks and the buffer loop compute the signed text or the first error |
| `Signing.FingerprintIgnoresOrder` | crates/depot-core/src/signing.rs:202-218 | The order of references does not matter |
| `Signing.FingerprintsAgreeExactly` | crates/depot-core/src/signing.rs:182-221 | For store paths without semicolons, fingerprints are equal if and only if store path, normalised hash, size and the sorted references joined by commas are |
| `Signing.FingerprintDetermines` | crates/depot-core/src/signing.rs:182-221 | Equal fingerprints imply equal store path, normalised hash, size and reference multiset, when store paths have no semicolon and references no comma |
| `Metadata.JoinedReferencesCollide` | crates/depot-core/src/signing.rs:202-218 | Without that condition it fails: joining the two or more references of an accepted document by commas gives other references and the same fingerprint, and is accepted too unless the store directory itself is one of them |
| `Samples.SampleFingerprintsCollide` | crates/depot-core/src/signing.rs:202-218 | Whatever the store directory, there are two accepted documents with different references and one fingerprint |
| `Samples.SampleStorePathsCollide` | crates/depot-core/src/signing.rs:182-221 | Whatever the store directory, there are two accepted documents with different store paths, one with semicolons, and one fingerprint |
| `Signing.FingerprintOfCanonical` | crates/depot-core/src/signing.rs:182-221 | The canonical form keeps the fingerprint if and only if the digest has the length of a sha256 digest |
| `Signing.RenderSigned` | crates/depot-read/src/service.rs:110-121 | Serves the document with its own signatures and one per key, or the fingerprint error |
| `Signing.ServedSignaturesStayValid` | crates/depot-read/src/service.rs:110-121 | A reader of the served text of a clean document recovers the signed text, all old signatures, one per key, and no others |
| `ServingLaws.DocumentExactly` | crates/depot-core/src/narinfo.rs:193-244 | The rendered document, line by line, with every label and in this order |
| `ServingLaws.ReferencesExactly` | crates/depot-core/src/narinfo.rs:209-218 | The references line: a space before each displayed reference, and a space alone if there is none |
| `ServingLaws.FingerprintExactly` | crates/depot-core/src/signing.rs:182-221 | The signed text character by character: version 1, path, sha256 digest, size, and the sorted references joined by commas |
| `ServingLaws.FingerprintObjection` | crates/depot-core/src/signing.rs:182-201 | The error: the path, else the hash, else the first reference outside the store directory |
| `ServingLaws.SignaturesExactly` | crates/depot-core/src/signing.rs:90-100 | The document's signatures and then, key by key, its name, a colon and what it signs |
| `ServingLaws.FirstAnswerDecides` | crates/depot-read/src/service.rs:61-86 | The first upstream that answers decides, whatever stands before it that does not answer and after it |
| `ServedNarInfos.RenderNarInfo` | crates/depot-read/src/service.rs:61-86 | The local row decides; otherwise the first upstream that answers, even when its answer cannot be read |
| `ServedNarInfos.RelayedSignaturesStayValid` | crates/depot-read/src/service.rs:61-121 | A clean document rendered upstream, parsed and re-signed by the depot and parsed by the reader keeps the text that upstream signed, and has exactly upstream's signatures and the depot's |
| `ServedNarInfos.PublishedPathsResolve` | crates/depot-db/src/paths.rs:117-155 | Over every run, while a ref names a build each of its paths resolves in every view that shows the ref to the row it had when the build was published |
| `ServedNarInfos.PublishedIsVisible` | crates/depot-db/migrations/20260420082641_pins_and_local_gc.sql:22-46 | What is published shows in the view of its project, and in the view of all public projects exactly when the project is public |
| `ServedNarInfos.PublishedSignaturesStayValid` | crates/depot-read/src/service.rs:61-121 | When the row of such a path is clean, what a reader parses has the row's signed text and exactly the row's signatures and the depot's |
| `Validation.AcceptedExactly` | crates/depot-core/src/validation.rs:66-195 | Accepted are exactly the documents whose paths lie in the store directory and whose URL is the printed sha256 digest and compression |
| `Validation.AcceptedIsAddressed` | crates/depot-core/src/validation.rs:66-123 | The result of an accepted document is the hash of its store path |
| `Validation.UrlsAreContentAddresses` | crates/depot-core/src/validation.rs:84-113 | Two accepted documents share a URL if and only if digest and compression agree |
| `Validation.PushedIsAccepted` | crates/depot-push/src/nix.rs:131-148 | What the pusher builds is accepted after transport if and only if its paths are inside and its digest is 32 bytes |
| `PublishLaws.StorePathObjection` | crates/depot-core/src/validation.rs:66-79 | The objections to a document's own path, each with its condition |
| `PublishLaws.UrlObjection` | crates/depot-core/src/validation.rs:125-138 | Then those to its URL |
| `PublishLaws.StatedObjection` | crates/depot-core/src/validation.rs:79-112 | Then those to compression, hash, and digest of the URL |
| `PublishLaws.ReferenceObjection` | crates/depot-core/src/validation.rs:154-173 | Then the first bad reference |
| `PublishLaws.DeriverObjection` | crates/depot-core/src/validation.rs:175-192 | Then the deriver; without any objection the answer is the store path hash |
| `Multipart.ReadNextPart` | crates/depot-store/src/s3.rs:359-384 | For every schedule of short reads: the next part_size bytes of the stream, or fewer at its end, or none |
| `Multipart.PutStreamMultipart` | crates/depot-store/src/s3.rs:227-308 | The server uploads the parts of the stream under numbers 1 to k up to 10000, completes them to an object that is the stream and reports its length; or it reports the first refusal or the limit, aborts and leaves nothing; a part size that is too small fails before anything is sent |
| `Multipart.UploadMultipart` | crates/depot-client/src/client.rs:217-326 | The client does the same, an upload URL that is not granted being a refusal, but gives up after its 10000th part, whether or not the stream ends there |
| `Multipart.PartsJoin` | crates/depot-client/src/client.rs:766-799 | The parts concatenate to the stream |
| `Multipart.PartSizes` | crates/depot-client/src/client.rs:766-799 | Every part but the last has exactly part_size bytes and the last is not empty |
| `Multipart.PartCount` | crates/depot-client/src/client.rs:270-325 | There are ceil(len / part_size) parts |
| `Multipart.AssembledObject` | crates/depot-store/src/s3.rs:163-210 | Completing with the recorded parts assembles the stream |
| `Multipart.LoopsDisagree` | crates/depot-store/src/s3.rs:349-357 | When no part is refused the loops disagree exactly on streams of 10000 parts if the part size is at least 5 MiB, and else on every stream that the client accepts |
| `Multipart.OutcomesExactly` | crates/depot-store/src/s3.rs:227-308 | The answers of both loops, in numbers: the first refused part, else an empty stream, the 10001st part on the server and the 10000th on the client, a refused completion, or the length of the stream |
| `Authz.TokenRoutesAgree` | crates/depot-write/src/authz.rs:248-300 | For access tokens, direct ref authorization succeeds exactly when project authorization and the later ref check do, with the same error otherwise |
| `Authz.OidcRoutesCompared` | crates/depot-write/src/authz.rs:163-223 | For OIDC the direct route succeeds exactly when the two steps do and the token names this ref, or names none while some binding is unrestricted |
| `Authz.OidcStepsAdmitMore` | crates/depot-write/src/authz.rs:163-223 | An identity whose token names one ref, with one unrestricted binding, gets to another ref in two steps and is forbidden in one |
| `Authz.AuthorizedRefPasses` | crates/depot-write/src/authz.rs:342-366 | Whoever is authorized for a ref passes the later check of that ref |
| `Authz.ScopeAdmits` | crates/depot-write/src/authz.rs:376-414 | The sorted, deduplicated patterns of some grants admit a ref exactly when one of the grants matches it |
| `Authz.TokenForRef` | crates/depot-write/src/authz.rs:274-322 | A token gets a scope for a ref if and only if the lookup of its id has a row of that project whose pattern is absent or matches the ref; the scope has exactly the patterns of these rows, or none if one has none; Unauthorized without rows, Forbidden without such a row, ServiceUnavailable when the lookup fails |
| `Authz.TokenForProject` | crates/depot-write/src/authz.rs:248-272 | The same for a project, without regard to patterns |
| `Authz.OidcForRef` | crates/depot-write/src/authz.rs:189-246 | An OIDC identity gets a scope for a ref if and only if its token names no other ref and the lookup of (provider, repository), in that order, has a row of that project that admits the ref the token names |
| `Authz.OidcForProject` | crates/depot-write/src/authz.rs:163-187 | The same for a project, whatever ref the token names |
| `Authz.AdminGetsEverything` | crates/depot-write/src/authz.rs:118-161 | The bootstrap administrator gets the admin scope on both routes, and it passes every later check |
| `Authz.RequiredExactly` | crates/depot-write/src/authz.rs:342-366 | A scope passes the later check if and only if it is of that project and has no pattern or one that matches |
| `Retention.MatchingRuleIsLeast` | crates/depot-db/src/retention.rs:329-337 | No rule applies exactly when none matches; the applying rule matches and has the least priority number of the matching ones |
| `Retention.MatchingRuleIgnoresOrder` | crates/depot-db/src/retention.rs:329-337 | With distinct priorities the listing order of the rules does not matter |
| `Retention.RetainedExactly` | crates/depot-db/src/retention.rs:259-326 | A build is retained if and only if for some ref fewer builds than its keep count were finalized after it |
| `Retention.TopCandidatesExact` | crates/depot-db/src/retention.rs:300-315 | Ordering and LIMIT k keep exactly the candidates that fewer than k others precede |
| `Retention.RetainedMonotone` | crates/depot-db/src/retention.rs:286-319 | Raising keep counts drops no build |
| `Retention.RetainedIgnoresRuleOrder` | crates/depot-db/src/retention.rs:259-337 | Reordering the rules of policies changes no retained build |
| `Retention.DefaultPolicyKeepsActiveRefs` | crates/depot-db/src/retention.rs:16-71 | Without a policy of its own a project keeps builds of a ref exactly while its applying default rule has not expired |
| `Retention.ReplacedPolicyIsGood` | crates/depot-db/src/retention.rs:134-240 | An accepted policy keeps at least one build by default and has distinct positive priorities |
| `KeptBuilds.RetainedInNumbers` | crates/depot-db/src/retention.rs:259-350 | A build is retained if and only if the first least-priority rule that matches its ref has no age limit or less than that many thousand milliseconds have passed since the ref changed (for a limit of 0, the change lies 1000 ms ahead), and fewer builds of the ref are newer than the rule, or else the policy, keeps |
| `KeptBuilds.KeepsSomeExactly` | crates/depot-db/src/retention.rs:329-350 | A ref keeps something if and only if such a rule applies, lasts and keeps at least one build |
| `KeptBuilds.DefaultRulesAre` | crates/depot-db/src/retention.rs:16-73 | The nine default rules, with patterns, seconds and counts as numbers |
| `Policies.PolicyRefused` | crates/depot-db/src/retention.rs:134-160 | What is refused before any rule is looked at, and with which error |
| `Policies.RuleRefused` | crates/depot-db/src/retention.rs:160-240 | The first bad rule (priority 0, blank pattern, oversized age or count, repeated priority) is the error of the whole policy |
| `Policies.PolicyAccepted` | crates/depot-db/src/retention.rs:134-240 | Any other policy is stored: exactly its rules, patterns trimmed, by priority, and no other project's policy changes |
| `Policies.TrimmedExactly` | crates/depot-db/src/retention.rs:134-240 | The trimmed pattern is the text between the white space at its ends |
| `Liveness.LivePathHashes` | crates/depot-db/src/gc.rs:321-354 | A worklist form of the recursive query terminates, on cycles too, and returns exactly the registered paths reachable from registered roots |
| `Liveness.LiveIsLeast` | crates/depot-db/src/gc.rs:321-354 | The live set is contained in every set that holds the registered roots and is closed under references |
| `Liveness.LiveIsClosed` | crates/depot-db/src/gc.rs:321-354 | The live set is closed under references to registered paths |
| `Liveness.LiveIsMonotone` | crates/depot-db/src/gc.rs:321-354 | More roots, paths or references make nothing dead |
| `Reachability.NeededExactly` | crates/depot-db/src/gc.rs:16-83 | A root is exactly a pinned path or a path of a pending build or of one that its ref keeps in the sense of RetainedInNumbers |
| `Reachability.LiveExactly` | crates/depot-db/src/gc.rs:302-354 | Live are exactly the registered paths at the end of a trail of references from a root |
| `Reachability.LiveObjectExactly` | crates/depot-db/src/gc.rs:356-394 | And exactly the objects linked to such a path |
| `Collection.PassKeepsLiveObjects` | crates/depot-ingest/src/gc.rs:28-88 | No pass, dry or wet, complete or aborted, whatever its grace, removes row or bytes of an object linked to a live path; a wet pass clears its tombstone |
| `Collection.PassDeletesDoomed` | crates/depot-ingest/src/gc.rs:44-88 | A wet pass succeeds exactly when no backend fails for a row past its grace in a configured backend; then exactly those rows and bytes go, and else all refreshed rows stay and the bytes before the first failure go |
| `Collection.DryRunReportsTombstones` | crates/depot-ingest/src/gc.rs:33-42 | The dry-run report is, in order, exactly the rows that clearing and marking leave tombstoned |
| `Collection.ZeroGraceDeletesStale` | crates/depot-ingest/src/gc.rs:44-88 | A pass without grace deletes rows and bytes of exactly the stale objects whose backend is configured |
| `Collection.AbortedPassRecovers` | crates/depot-ingest/src/gc.rs:44-88 | A pass aborted by a failing backend at any object, then a full pass at the same time, ends in the same world as the full pass alone |
| `Passes.DryPassExactly` | crates/depot-ingest/src/gc.rs:33-42 | A dry pass changes nothing and reports exactly the rows without a live link, by backend and path |
| `Passes.WetPassExactly` | crates/depot-ingest/src/gc.rs:44-88 | Unless a backend fails, rows and bytes go if and only if no live link is there, the first mark is the grace period old in whole seconds and the backend is configured; every other row is unmarked if live and marked if not, keeping older marks |
| `Passes.FailedPassExactly` | crates/depot-ingest/src/gc.rs:54-80 | Otherwise no row goes, and exactly the bytes that come before the first failure in the order of backends and paths |
| `Passes.FailureReported` | crates/depot-ingest/src/gc.rs:54-80 | The error names that failure |
| `Passes.ReportExactly` | crates/depot-ingest/src/gc.rs:82-88 | The report lists exactly the paths of what is deleted, in that order |
| `Runs.EveryScheduleRuns` | crates/depot-ingest/src/service.rs:56-359 | Every schedule of events at increasing times from every initial world is a run |
| `Runs.StepKeepsInvariant` | crates/depot-db/src/builds.rs:194-247 | Every event keeps: links carry the registered URL, each ref names the newest finalized build of its project and ref, tombstone columns are paired and past, policies are good |
| `Runs.ReachableInvariant` | crates/depot-db/src/builds.rs:194-247 | Every world that a run reaches satisfies that invariant |
| `Runs.ReachableRows` | crates/depot-db/src/paths.rs:12-115 | In every reachable world each metadata row validates again under its own key and is in stored form |
| `Runs.RowsAreWriteOnce` | crates/depot-db/src/paths.rs:12-115 | Over every run a metadata row is never changed or removed |
| `Runs.RegisterAllRegisters` | crates/depot-ingest/src/service.rs:87-99 | After a successful registration each document has a row of its content, each path is attached, and nothing else was attached |
| `Requests.BeginExactly` | crates/depot-db/src/builds.rs:15-44 | Beginning adds one pending row of a known project, dated now; any other request to begin changes nothing and has its error |
| `Requests.PendingExactly` | crates/depot-ingest/src/service.rs:76-86 | When a build is unknown and when it is no longer pending |
| `Requests.FirstRowExactly` | crates/depot-db/src/paths.rs:12-115 | The row a first document leaves, field by field, and what refuses it |
| `Requests.CompatibleInFields` | crates/depot-db/src/paths.rs:320-352 | When a second document for a path is compatible, field by field |
| `Requests.SecondRowExactly` | crates/depot-db/src/paths.rs:54-67 | A second document writes nothing and is answered by that |
| `Requests.RegistersInTurn` | crates/depot-ingest/src/service.rs:87-99 | Documents are registered in turn, up to the first that is refused |
| `Requests.UpstreamExactly` | crates/depot-ingest/src/service.rs:371-388 | An object is upstream if and only if some enabled upstream of the project has it, wherever it stands in the list |
| `Requests.PlanExactly` | crates/depot-ingest/src/planner.rs:28-75 | The plan: for each document, in order, whose URL is an archive that neither the backend nor any upstream has, one upload |
| `Requests.PinExactly` | crates/depot-db/src/pins.rs:12-71 | What a request for a pin writes, and each refusal |
| `Requests.UnpinExactly` | crates/depot-db/src/pins.rs:155-182 | Removing a pin removes that pin alone |
| `Recording.AcceptedUploads` | crates/depot-ingest/src/service.rs:394-448 | An upload is accepted if and only if the build is pending, the path is an archive and the registered one of a path of the build, and the project's backend is configured; it goes to that backend |
| `Recording.RefusedUploads` | crates/depot-ingest/src/service.rs:394-448 | And what each other upload is told |
| `Recording.UploadExactly` | crates/depot-ingest/src/service.rs:154-186 | An accepted upload stores the bytes and leaves one fresh row with their length and one link; nothing else changes |
| `Recording.CompletionExactly` | crates/depot-ingest/src/service.rs:217-279 | An accepted completion does so with the reported length, but from 2^63 on it takes the bytes away and leaves the rows |
| `Recording.RegistrationExactly` | crates/depot-ingest/src/service.rs:70-152 | What a registration leaves: the recorded documents and, if all were recorded and the backend is configured, a fresh row and a link for every archive that is there; the answer is the plan |
| `Recording.AnswerExactly` | crates/depot-ingest/src/service.rs:137-150 | The first planned upload that a multipart backend does not open is the error |
| `Recording.FinalizesExactly` | crates/depot-ingest/src/service.rs:297-359 | Finalizing an open build records what is local up to the first path, by hash, whose archive is nowhere, which is the error; if there is none the ref names the build and the build is finalized, both now, and no other row of either table changes |
| `Recording.FinalizeRefused` | crates/depot-ingest/src/service.rs:297-323 | A build that is unknown, not pending, without paths or without its backend: the error, and no change |
| `Metadata.CompatibleExactly` | crates/depot-db/src/paths.rs:320-352 | A document is compatible with a row if and only if they agree up to spelling of the hash and order of references |
| `Metadata.RegisteredAgain` | crates/depot-db/src/paths.rs:54-67 | Registering a path again succeeds exactly for the same content, writes nothing, and has the row's fingerprint |
| `Metadata.RegisteredFirst` | crates/depot-db/src/paths.rs:69-114 | The row of a first registration has the document's fingerprint, references and signatures |
| `Metadata.RowDecidesForever` | crates/depot-db/src/paths.rs:12-115 | Over every run: once there is a row, a later registration succeeds exactly for its content, changes nothing and has its signed text |
| `Metadata.LinksCarryRegisteredUrls` | crates/depot-ingest/src/service.rs:394-448 | In every reachable world each link is a NAR link with its row's URL, and the row validates again, so the URL is its content address |
| `Progression.RunGrows` | crates/depot-db/src/builds.rs:100-247 | Over every run projects stay, paths, attachments, links and builds are only added, and a finalized build never changes |
| `ObjectLife.StepKeepsBlob` | crates/depot-ingest/src/service.rs:217-279 | Unless a pass finds an object dead, its bytes survive an event if and only if the event is not an accepted completion reporting a length no row can hold; after it they are those of the event if that is an accepted write of this very object, else the same |
| `ObjectLife.RowStaysWhileLive` | crates/depot-db/src/gc.rs:265-299 | Over every run a row stays as long as every pass finds the object live |
| `ObjectLife.BytesStayWhileLive` | crates/depot-ingest/src/gc.rs:44-88 | Over every run the bytes stay as long as every pass finds the object live and no completion loses it, and are those of its last accepted write |
| `ObjectLife.LatestBytesAreOne` | crates/depot-ingest/src/service.rs:154-279 | There is only one value that the last accepted write left |
| `ObjectLife.CollectorIsSafe` | crates/depot-ingest/src/gc.rs:44-82 | In no run does a pass touch an object linked to a path that a chain of references connects to a pin, a pending build's path or a retained build's path |
| `ObjectLife.NeededIsRoot` | crates/depot-db/src/gc.rs:16-83 | The roots are exactly the pinned paths and the paths of pending and of retained builds |
| `ObjectLife.DryRunPredicts` | crates/depot-ingest/src/gc.rs:33-88 | In every reachable world the dry run reports exactly what a wet pass tombstones and what one without grace deletes where a backend is configured |
| `GraceHistory.MarksHaveHistory` | crates/depot-db/src/gc.rs:200-232 | In every reachable world a tombstone was set by an earlier pass that found the object dead, as did every pass since, and it was carried unbroken |
| `GraceHistory.DeletedAfterGrace` | crates/depot-db/src/gc.rs:171-263 | Over every run the row of an object is deleted only by a pass, after a pass at least the grace period earlier in whole seconds found it dead, every pass since did too, it carried that mark all along, and no request recorded it |
| `GraceHistory.BytesDeletedAfterGrace` | crates/depot-ingest/src/gc.rs:54-80 | Over every run bytes are removed only by a losing completion or by a pass, aborted passes included, with the same history behind it |
| `GraceHistory.RecordingUnmarks` | crates/depot-db/src/objects.rs:66-97 | Every request that records an object (an upload, a completion, a registration or finalize that reaches its local NAR) leaves its row without a tombstone |
| `GraceHistory.OnlyRecordingRewrites` | crates/depot-ingest/src/service.rs:70-359 | No other request adds or changes the row |
| `GraceHistory.NothingGoesEarly` | crates/depot-ingest/src/gc.rs:44-88 | Over every run, in milliseconds: before rows or bytes go, an earlier pass, more than 1000 * (grace - 1) before, had found the object dead |
| `GraceHistory.NothingGoesWithinSixHours` | crates/depot-ingest/src/gc.rs:7-26 | With the default grace that was more than 21599000 ms before |
| `Reclamation.DeadIsCollected` | crates/depot-ingest/src/gc.rs:44-88 | The converse over every run: an object in a configured backend that a pass found dead, every pass since too, and that no request recorded, is gone, row and bytes, after a pass at least its grace later in whole seconds that no backend stops |
| `Reclamation.RowGoesExactly` | crates/depot-db/src/gc.rs:171-263 | Over every run a pass that no backend stops deletes a row if and only if its backend is configured and that history of dead, marked and unrecorded grace is behind it |
| `Reclamation.DeadIsCollectedInTime` | crates/depot-ingest/src/gc.rs:44-88 | The converse over every run: an object dead since a pass at least 1000 * grace + 999 ms before is gone, row and bytes, after a pass that no backend stops |
| `Reclamation.DeadIsCollectedAfterSixHours` | crates/depot-ingest/src/gc.rs:7-26 | With the default grace 21601000 ms are enough |
| `ServedRefs.CurrentBuildIsRetained` | crates/depot-db/src/retention.rs:259-326 | The build a ref names is retained if and only if a rule applies to the ref, is active and has a positive keep count |
| `ServedRefs.CurrentClosureIsLive` | crates/depot-db/src/gc.rs:321-394 | Then everything its paths reach, and the objects linked to it, are live |
| `ServedRefs.KeptRefsAreLive` | crates/depot-db/src/gc.rs:16-83 | The same at every moment of every run |
| `ServedRefs.StepKeepsHeldExactly` | crates/depot-ingest/src/service.rs:249-276 | A linked, recorded and stored object of a build stays so over an event if and only if it is not a pass that finds it dead nor an accepted completion reporting more than 2^63-1 bytes |
| `ServedRefs.FinalizedIsHeld` | crates/depot-ingest/src/service.rs:324-357 | A successful finalize links and records each NAR in the project's storage and makes the ref name the build |
| `ServedRefs.HeldIsServed` | crates/depot-read/src/local_objects.rs:29-71 | Such an object of the build a ref names is visible in the project view and served from the project's own storage |
| `ServedRefs.NamedAllAlong` | crates/depot-db/src/builds.rs:207-240 | A finalized build that a ref does not name any more is never named again |
| `ServedRefs.ServedRefsAreProtected` | crates/depot-read/src/local_objects.rs:118-134 | Over every run a NAR stored at publication is served in the project view while the ref names the build, every pass found the ref kept and no completion lost it, with the bytes of the last accepted write of that object since, or those of then |
| `ServedRefs.PublicRefsAreProtected` | crates/depot-read/src/local_objects.rs:118-134 | For a public project the same holds in the view of all public projects: some copy is served, the default backend's if it has one and else the first, and the project's own, with those bytes, if that is the default |
| `PinnedPaths.PinsAreInOrder` | crates/depot-db/src/pins.rs:12-71 | In every reachable world a project's pin belongs to an existing project, and each pin names a registered path under that path's store path |
| `PinnedPaths.PinnedObjectsAreServed` | crates/depot-read/src/local_objects.rs:118-134 | Over every run a linked, recorded and stored NAR of a pinned path stays served in the view of the pin's scope, by the order of preference and with the bytes of its last accepted write, while the pin is there and no completion loses it |
| `PinnedPaths.PinnedPathsResolve` | crates/depot-db/src/paths.rs:117-155 | Over every run a pinned path resolves in the view of the pin's scope to the row it was first registered with |
| `PushProgress.FinalizeSucceedsExactly` | crates/depot-ingest/src/service.rs:297-359 | Finalizing succeeds if and only if the build is pending, has a path, its backend is configured and each NAR is there or upstream |
| `PushProgress.PlannedExactly` | crates/depot-ingest/src/planner.rs:28-75 | The planned uploads are exactly the NARs that are neither in the backend nor upstream |
| `PushProgress.RegisteredIsCoveredOrPlanned` | crates/depot-ingest/src/service.rs:70-152 | After a successful registration each document's NAR is upstream, recorded and linked, or asked for |
| `PushProgress.UploadCovers` | crates/depot-ingest/src/service.rs:154-186 | A successful upload stores, records and links the object of the path |
| `PushProgress.CompletionCovers` | crates/depot-ingest/src/service.rs:217-279 | So does a successful completion |
| `PushProgress.StepKeepsCovered` | crates/depot-ingest/src/service.rs:70-359 | While a build is pending, a covered NAR stays covered over an event, passes included, if and only if upstream serves it or the event is not a completion that loses this one object |
| `PushProgress.UploadedBuildsFinalize` | crates/depot-ingest/src/service.rs:297-359 | Over every run a pending build with a path can be finalized once no requested upload is owed, if each of its paths was announced by a successful registration and no completion lost its NAR since; whatever else happened or was lost |
| `PushProgress.PushedBuildsFinalizeExactly` | crates/depot-ingest/src/service.rs:297-359 | Over every run a pending build with a path and no owed upload can be finalized if and only if its backend is configured and each NAR that was not announced and kept so is there or upstream |
| `PushProgress.CleanPushesFinalize` | crates/depot-ingest/src/service.rs:70-152 | The same when all registrations of the build so far succeeded and nothing lost a NAR of this build |
| `PushProgress.FinalizedWasAvailable` | crates/depot-ingest/src/service.rs:324-345 | Over every run a finalized build had each NAR local or upstream when it was finalized |
| `Failures.OverlongCompletionUnserves` | crates/depot-ingest/src/service.rs:249-276 | For every document that has to be uploaded and all bytes there is a run from an empty depot in which a second build, asked for the same upload, completes it reporting 2^63 bytes and so ends the serving of a published NAR that its ref still names |
| `Failures.OverlongCompletionBlocksPush` | crates/depot-ingest/src/service.rs:249-276 | In such a run that completion turns a build that owes nothing and could be finalized into one that cannot |
| `Failures.HalfRegistrationStrands` | crates/depot-ingest/src/service.rs:87-99 | There is a run from an empty depot in which a registration stops at its second document: its first path is attached, nothing is owed or lost, and the pending build cannot be finalized |
| `ReadStore.FetchedChoice` | crates/depot-read/src/local_objects.rs:29-71 | What is fetched is row and bytes of the preferred backend if it can serve, else of the first that can |
| `ReadStore.ChoiceExists` | crates/depot-read/src/local_objects.rs:45-68 | Something is served exactly when some configured backend with an unmarked row has the bytes |
| `Visibility.ShownExactly` | crates/depot-db/migrations/20260420082641_pins_and_local_gc.sql:22-46 | A path is visible to a project if and only if a ref of that very project names a build with it or a pin of that project is on it, and in the view of all public projects if and only if a ref of a public project or a pin of no project does the same |
| `Visibility.ObjectShownExactly` | crates/depot-db/src/objects.rs:128-174 | An object is visible if and only if it is linked to such a path |
| `Visibility.DocumentShownExactly` | crates/depot-db/src/paths.rs:117-195 | A document resolves, to its row, if and only if its path is such a path and has a row |
| `Visibility.ServedExactly` | crates/depot-read/src/local_objects.rs:118-134 | Served is nothing, or row and bytes of one configured backend that holds the object under an unmarked row: the project's own if it can, in the aggregate view the default one, else the first |
| `Visibility.NamedWasPublished` | crates/depot-db/src/builds.rs:194-247 | Over every run a ref names only a build that a finalize published to it |
| `Visibility.ProjectShowsItsOwn` | crates/depot-db/src/paths.rs:117-155 | Over every run the view of a project has neither path nor document of what no finalize published to a ref of that project and no request pinned in it |
| `Visibility.PublicShowsPublic` | crates/depot-db/src/paths.rs:157-195 | The same for the view of all public projects, with public projects and pins of no project |
| `Visibility.NothingElseIsServed` | crates/depot-read/src/local_objects.rs:118-134 | An object none of whose links is to a shown path is not served, whoever stores it |
| `Database.SqliteDatabase.BeginBuild` | crates/depot-db/src/builds.rs:15-44 | Inserts a pending build of a known project, or changes nothing |
| `Database.SqliteDatabase.AttachBuildPath` | crates/depot-db/src/builds.rs:100-121 | Adds the pair if it is not there and leaves the other tables alone |
| `Database.SqliteDatabase.ListBuildPathHashes` | crates/depot-db/src/builds.rs:163-192 | The registered paths of the build in ascending order |
| `Database.SqliteDatabase.PublishBuildToRef` | crates/depot-db/src/builds.rs:194-247 | Ref row and build row change together, at one time, and nothing else |
| `Database.SqliteDatabase.UpsertPathInfo` | crates/depot-db/src/paths.rs:12-115 | A new row with its references and signatures in order, or a check against the row that is there, or an error and no change |
| `Database.SqliteDatabase.UpsertStorageObject` | crates/depot-db/src/objects.rs:46-97 | A row without tombstone, or an error and no change when the length does not fit |
| `Database.SqliteDatabase.LinkPathObject` | crates/depot-db/src/objects.rs:176-199 | Adds the link of that kind if it is not there |
| `Database.SqliteDatabase.UpsertPin` | crates/depot-db/src/pins.rs:12-71 | Pins a registered path under its own store path, or changes nothing |
| `Database.SqliteDatabase.DeletePin` | crates/depot-db/src/pins.rs:155-182 | Removes the pin of that scope and name only |
| `Database.SqliteDatabase.ReplaceProjectRetentionPolicy` | crates/depot-db/src/retention.rs:134-240 | All rules of the new policy, trimmed and by priority, or none when one is refused |
| `Database.SqliteDatabase.ListRetainedBuildIdsForGc` | crates/depot-db/src/retention.rs:259-326 | The loop over refs returns the retained builds in ascending order, each once |
| `Database.SqliteDatabase.ListRootStorePathHashes` | crates/depot-db/src/gc.rs:16-83 | The three listings together are the roots in ascending order, each once |
| `Database.SqliteDatabase.ListLiveStorageObjectPaths` | crates/depot-db/src/gc.rs:112-133 | The object paths linked to live paths in ascending order, each once |
| `Database.SqliteDatabase.ListStaleStorageObjects` | crates/depot-db/src/gc.rs:135-169 | The rows without a live link, in order |
| `Database.SqliteDatabase.ClearDeletedStateForLiveStorageObjects` | crates/depot-db/src/gc.rs:171-198 | Tombstones of live rows are cleared and nothing else changes |
| `Database.SqliteDatabase.MarkStaleStorageObjects` | crates/depot-db/src/gc.rs:200-232 | Stale rows get tombstones and keep older ones; nothing else changes |
| `Database.SqliteDatabase.ListStorageObjectsReadyForDeletion` | crates/depot-db/src/gc.rs:234-263 | The rows whose first tombstone is at least the grace period old in whole seconds, in order |
| `Database.SqliteDatabase.DeleteStorageObjects` | crates/depot-db/src/gc.rs:265-299 | Removes exactly the listed rows |
| `Services.GcService.DeleteReadyObjects` | crates/depot-ingest/src/gc.rs:54-80 | The deletion loop skips unconfigured backends, stops at the first failure and reports what it deleted |
| `Services.GcService.RunLocalGcWithGracePeriod` | crates/depot-ingest/src/gc.rs:28-88 | The imperative pass takes database and backends to the world, and returns the report, of the pass specification |
| `Services.GcService.RunLocalGc` | crates/depot-ingest/src/gc.rs:23-26 | The pass with a grace of six hours |
| `Services.IngestService.RegisterDocuments` | crates/depot-ingest/src/service.rs:87-99 | Validates, records and attaches documents in order up to the first refused one, keeping what was written |
| `Services.IngestService.PlanRequiredUploads` | crates/depot-ingest/src/planner.rs:28-75 | The nested loops compute the plan whose members PlannedExactly characterises |
| `Services.IngestService.LinkLocalObjects` | crates/depot-ingest/src/service.rs:116-135 | Records and links what the backend already holds |
| `Services.IngestService.OpenUploads` | crates/depot-ingest/src/service.rs:137-150 | Each planned upload in order with its upload method, multipart exactly where the backend takes such uploads, or the first upload that the backend does not open |
| `Services.IngestService.RegisterPaths` | crates/depot-ingest/src/service.rs:70-152 | The request takes the world where the runs' registration step does; the answer is that step's error, or its plan with an opened upload or the proxy method for each, or the upload that could not be opened |
| `Services.IngestService.UploadObject` | crates/depot-ingest/src/service.rs:154-186 | The request takes the world where the runs' upload step does, with the same answer; a stream that fails changes nothing |
| `Services.IngestService.CompleteMultipartUpload` | crates/depot-ingest/src/service.rs:217-279 | With the object assembled for that upload id and part list, the request takes the world where the runs' completion step does, deletion after a refused row included; without parts, with a bad part number or a refusal of the backend it changes nothing |
| `Services.IngestService.CheckBuildObjects` | crates/depot-ingest/src/service.rs:324-345 | Records local objects one by one up to the first that is nowhere |
| `Services.IngestService.FinalizeBuild` | crates/depot-ingest/src/service.rs:297-359 | The request takes the world where the runs' finalize step does, with the same answer |
| `Services.DbBackedObjectStore.ListInOrder` | crates/depot-read/src/local_objects.rs:34-44 | The unmarked rows of the object, the preferred backend's first and then by backend |
| `Services.DbBackedObjectStore.GetUnscoped` | crates/depot-read/src/local_objects.rs:29-71 | The loop over rows returns the choice's metadata and bytes, or nothing when no copy can be served |
| `Services.DbBackedObjectStore.HeadUnscoped` | crates/depot-read/src/local_objects.rs:73-116 | The same choice, metadata only |
| `Services.DbBackedObjectStore.GetVisible` | crates/depot-read/src/local_objects.rs:118-134 | Nothing for an invisible object, else the choice with the view's preferred backend |
| `Server.DepotServer.Handle` | crates/depot-ingest/src/service.rs:56-359 | Handling an event takes the objects of the services exactly one step of the state machine that the run theorems are about |
| `Server.DepotServer.HandleAll` | crates/depot-ingest/src/service.rs:56-359 | Handling events in the order of the clock from an empty depot produces a run whose last world is the state reached |
| `FirstPush.FirstPushIsServed` | crates/depot-ingest/src/service.rs:56-359 | In a depot without rows the four requests of a push of any acceptable document make up a run, the last publishes, and the uploaded bytes are then served in the project view |
| `Samples.SampleIsAccepted` | crates/depot-core/src/validation.rs:66-123 | Whatever the store directory, there is an acceptable document |

## Left out

- HTTP routes and handlers, request decoding (JSON, UUIDs, project slugs), status codes, the command line tools and configuration: glue without state of its own.
- Object storage services, presigned URLs, the file system, `nix` subprocesses and zstd: a backend is a map from paths to bytes, and a multipart upload is the bytes that its completion assembles.
- Presigning a part and aborting an upload as requests of their own: they change neither rows nor stored objects.
- Failing `head` and `delete` calls of a backend in requests, failing upstream lookups and database errors: backends fail where a pass deletes, an upload is opened, a stream is written, a part is sent or an upload is completed. A stream that fails stores nothing, as both backends take care that it does.
- Ed25519, key encryption, tokens and their hashes: signing is a function of the message, token and binding lookups are parameters.
- `WildMatch` is a parameter `glob(pattern, text)`; nothing but the last default rule's pattern is assumed of it, and only where that is said.
- Interleaving inside one request or one pass: each is one step at one reading of the clock. A pin that is created between the collector's listing and its deletion is not protected by the code, and publication reads the clock before its transaction (crates/depot-db/src/builds.rs:202-207).
- Timestamps are integers in milliseconds; the code stores RFC 3339 text and compares some of it as text. Two events never share a time.
- Projects, their storage, the enabled upstreams and what upstreams serve do not change during a run; a project is identified by its slug.
- Row ids of rules, creation and update times other than those that retention reads, revisions, display names and `last_modified` are not kept.
- Store paths, URLs and the other texts are sequences of scalar values; sorting compares scalar values, which orders them as their UTF-8 bytes do.
- A stored object has fewer than 2^63 bytes, and the length of one stream fits 64 bits.
- Fetching a NAR from upstream when no local copy is served (crates/depot-read/src/service.rs:88-108): the same early-return loop as for documents.
- `head` and `get` of the object store without a view are the unscoped reads with the default backend and have no members of their own.
- Listing pins, policies and builds for display, upstream and project administration, signing-key rotation and the authorizer chain: no result here depends on them.
- S3 key prefixes and object path checks (crates/depot-store/src/s3.rs:310-340): not needed by any result.
- Retention.RetainedExactly: builds of one ref that were finalized and created at the same times are ordered by id, which the query leaves open.
- Runs.ReachableInvariant: object rows whose backend is not configured any more are kept as the code keeps them, and nothing is said about ever deleting them.
- ServedNarInfos.RelayedSignaturesStayValid: whether a signature verifies is not modelled; the result is that the signed text and the list of signatures are unchanged.
- Multipart.PutStreamMultipart: reading the stream does not fail, and the abort after a failure is taken to succeed.
- Multipart.UploadMultipart: the same; presigning a part and sending it are one action that the backend grants or refuses.
