# Mobius: a verified model of the Hotline server's core

Mobius is a server for the Hotline protocol, written in Go. This project models the parts of it whose
correctness depends on state carried over many steps or on several functions agreeing with each other,
and proves what those parts are for:

- **The threaded news store.** Four operations change a tree in memory, write it to a file, and undo the
  change when the write fails. In every run with writes failing anywhere, memory agrees with the file after
  each operation if and only if each operation met a condition on the tree before it; other paths are never
  touched; a post can be read as it was given until something takes it away; and the links between articles
  keep an invariant through deletes that relink nothing and through reused IDs, again if and only if each
  operation met a condition.
- **The wire.** Whatever sizes the reads have, the scanning loop gives the tokens of one pass over the
  stream; transactions and fields survive being encoded, cut off and parsed; an article list pushed in by
  writes of any size ends the same as after one write, and a category does exactly under a condition on its
  bytes.
- **File transfer.** Flattened file objects round trip; uploads cut at any byte, failing anywhere and resumed
  arrive whole; announced sizes are compared with the bytes sent, in the 32 bits of the announcement, and
  what is sent with what a receiver makes of it; the transfer tables of the server and of its clients agree.
- **Paths and the tracker list.** One encoder and three decoders agree, exactly when the sections fit the
  decoders' buffer; a path that `ReadPath` resolves never leads out of the file root, and an item of a folder
  upload stays in its folder exactly under a condition on its segments; batched server lists are read in order
  with one header per batch, exactly when no batch but the first is empty.
- **Idle clients.** With clients joining and leaving, a client is away exactly from the 31st tick since it
  joined or last did something, each change is announced once to every client that is there, and what a client
  was last told is the truth.

## How it is built

Objects that the source updates in place are classes with those fields. Each of their methods is proved
against a function on values (`EffectOf`, `ParseTransaction`, `Uploaded`, `Written`, ...), and the results about
whole runs are lemmas about those functions. A step at which the Go code panics (a nil map written, a nil
pointer followed, a slice out of bounds) is an outcome of the operation, not a precondition. Fixed-width
integers are written out: `PutU16` and `PutU32` keep the low bits, and sums that wrap in the source wrap here
(`Add16`, `Sub16`, `Add32`).

| file | what it models |
|---|---|
| `Bytes`, `Sorting`, `Streams` | integers in bytes, sorting by distinct keys, readers and `readFrom` |
| `NewsTree`, `ThreadedNews`, `NewsRuns`, `NewsEffects`, `NewsLinks` | the news tree, the four operations, runs, what the operations come to, article links |
| `NewsListing`, `NewsRows`, `NewsCategories` | article lists, and what a client reads in one; category records |
| `Framing`, `Transactions` | split functions and the scanner; fields, transactions, the serving loop |
| `FlatFile`, `ResumeData`, `Uploads`, `UploadRuns`, `Downloads` | flattened files, resuming, receiving, sending |
| `Paths`, `CleanedPaths`, `ItemScanner`, `PathCodec`, `FolderPaths`, `FolderTargets` | path cleaning; the scanner over path items; the path format on the wire and `ReadPath`; folder items and where they are put |
| `Tracker` | the tracker's server list |
| `TransferTables` | transfers in progress |
| `IdleClients`, `IdleRuns`, `IdleNotices` | idle time, the away flag, notices and what they say |

## Where the code falls short of what one would expect

Each is proved: the exact condition under which the code does what it is meant to, and for most an input on
which it does not.

- A failed news operation is not always undone. Creating a grouping over an existing name destroys it,
  deleting a missing article leaves a nil pointer behind, deleting a missing item leaves an empty category,
  posting to a missing category leaves one behind, and replying to a missing article panics after the newest
  article has been linked (`NewsEffects` has each of them). `NewsRuns.StepSettles` says when undoing works and
  `NewsRuns.MemoryIsFile` what that means for a run; `NewsRuns.LostParent` is an input.
- A client that does not resume although the server has part of its file ends up with the part twice:
  `UploadRuns.NotResuming`.
- A fresh download sends 16 bytes more than it announces: `Downloads.SizesAgree`.
- A resumed download's header announces the whole data fork while only its tail follows, so that a receiver takes
  bytes of the resource fork for data: `Downloads.ResumedReceived`; `Downloads.ResumedJoins` says when the
  result is right all the same.
- An item of a folder upload is joined to the folder's path without taking ".." away: in an upload to `/r/u` the
  segments ".." and "e" name `/r/e`. `FolderTargets.ItemUnderFolder` has the exact condition,
  `FolderTargets.ItemBesideFolder` such inputs.
- A folder item whose path is 65536 bytes or longer, without its count, is taken to end before it does:
  `FolderPaths.FileHeaderRoundTrip`.
- A sidecar of 1 to 70 bytes, cut off before the size of the name, is read as a fork without a name:
  `FlatFile.ShortSidecarRead`.
- Names of 65462 to 65535 bytes make the parser of the information fork panic, longer ones are not read back
  as they were: `FlatFile.InfoRoundTrip`.
- Section names of 253 to 255 bytes make `FilePath.Write` panic, longer ones are not recovered:
  `PathCodec.FilePathRoundTrip`.
- A path longer than 4096 bytes makes `FilePath.Write` and `DecodeNewsPath` panic when one of its sections
  runs past the scanner's buffer: `PathCodec.NewsPathRoundTrip` has the condition, computed from the lengths
  of the sections, and `PathCodec.LongPathPanics` seventeen sections of 252 bytes.
- A path that announces more sections than it has is refused by one decoder and filled up with empty sections
  by the other: `PathCodec.CountDecides`.
- One title or poster longer than 255 bytes makes the list of a category's articles unreadable:
  `NewsRows.ListTellsAll`.
- A batch of servers announced empty, other than the first, makes the list parser read everything after it as
  records: `Tracker.ListedInOrder` and `Tracker.EmptyBatchMisread`; in `Tracker.HeaderListedAsServer` a
  batch header is listed as a server.
- What a category shows can depend on how its bytes were cut into writes:
  `NewsCategories.AllCutsShowTheSame` has the condition, `NewsCategories.SplitSeen` an input.
- A reference number drawn twice for different owners leaves the old transfer in its client's table for
  good: `TransferTables.AddAgrees`.
- An ID counter at its maximum wraps to 0, which meets an article only if one is numbered 0
  (`NewsLinks.NewIDIsUnused`), and breaks the links between articles (`NewsLinks.PostKeepsLinks`).

## Model

| member | source | states |
|---|---|---|
| NewsTree.PutAtFrame | internal/mobius/threaded_news.go:129-136 | a change to the map at a path is seen by the paths below it and by no others |
| NewsTree.PutAtSame | internal/mobius/threaded_news.go:129-136 | writing a map back at a path changes the tree exactly when it differs from what was there |
| NewsTree.RemovedFrame | internal/mobius/threaded_news.go:80-81 | deleting an entry removes what is at and below its path, and nothing else |
| ThreadedNews.ThreadedNewsYAML.CreateGrouping | internal/mobius/threaded_news.go:32-50 | outcome, tree and file of creating a grouping, and of taking it back when the write fails |
| ThreadedNews.ThreadedNewsYAML.DeleteNewsItem | internal/mobius/threaded_news.go:67-88 | outcome, tree and file of deleting an item, and of restoring it when the write fails |
| ThreadedNews.ThreadedNewsYAML.PostArticle | internal/mobius/threaded_news.go:138-215 | outcome, tree and file of posting: invalid and missing paths, panics, the new article with its links, and the category without it when the write fails |
| ThreadedNews.ThreadedNewsYAML.PostInto | internal/mobius/threaded_news.go:150-215 | the part of a post that works on the category found: the newest article is linked in place before the parent is looked up |
| ThreadedNews.ThreadedNewsYAML.CommitPost | internal/mobius/threaded_news.go:197-214 | storing, writing and taking back: file and tree both have the post or neither does |
| ThreadedNews.ThreadedNewsYAML.Unpost | internal/mobius/threaded_news.go:202-209 | taking a post out resets the links it had set, so every other article is as before |
| ThreadedNews.ThreadedNewsYAML.DeleteArticle | internal/mobius/threaded_news.go:217-245 | outcome, tree and file of deleting an article, and of putting it back when the write fails |
| ThreadedNews.LastKey | internal/mobius/threaded_news.go:156-169 | collecting the IDs in any order, sorting and taking the last gives the largest |
| ThreadedNews.LinkingUndone | internal/mobius/threaded_news.go:202-209 | undoing the links one by one gives back every article, also when the parent is the newest article |
| NewsRuns.StepSettles | internal/mobius/threaded_news.go:32-245 | an operation whose write is known to succeed or fail leaves memory as it was or reaches the file, if and only if a condition on the tree before it holds |
| NewsRuns.ProperExactly | internal/mobius/threaded_news.go:32-245 | the same whether or not the write succeeds |
| NewsRuns.PostSettles | internal/mobius/threaded_news.go:181-214 | for posts: a failed one restores the tree exactly when category and parent were there and the new ID was free; one whose write succeeds leaves nothing half done exactly when the parent was there, or there was nothing to link |
| NewsRuns.MemoryIsFile | internal/mobius/threaded_news.go:32-245 | in a run with writes failing at any point, memory equals the file after every operation if and only if each operation met its condition |
| NewsRuns.FailuresLeaveNothing | internal/mobius/threaded_news.go:32-245 | such a run ends as if only its successful operations had been tried |
| NewsRuns.LostParent | internal/mobius/threaded_news.go:181-193 | an input for which memory and file part: a reply to a missing article |
| NewsRuns.OtherPathsKept | internal/mobius/threaded_news.go:138-245 | whatever its outcome, an operation leaves every path but its target's as it was |
| NewsEffects.CreatedIsThere | internal/mobius/threaded_news.go:36-42 | a created grouping is there with its kind and name, without articles, with nothing below it, and can be created under |
| NewsEffects.FailedCreationClears | internal/mobius/threaded_news.go:44-46 | a creation that fails leaves nothing at its path or below, whatever was there |
| NewsEffects.DeletedIsGone | internal/mobius/threaded_news.go:79-80 | a deleted item is gone with all below it |
| NewsEffects.FailedDeletionShows | internal/mobius/threaded_news.go:82-85 | an item whose deletion fails is there as before; one that was not there is an empty category then |
| NewsEffects.DeletedArticleIsGone | internal/mobius/threaded_news.go:233-236 | after a delete that succeeds the article is absent from its category, and every other article, the kind and the name are as before |
| NewsEffects.FailedArticleDeletion | internal/mobius/threaded_news.go:238-242 | after one that fails every article is as before, but for a nil pointer where there was none to delete |
| NewsEffects.NothingToDelete | internal/mobius/threaded_news.go:233-242 | where there are no articles to delete from nothing changes, but for an empty category where there was none |
| NewsEffects.PostIsThere | internal/mobius/threaded_news.go:150-200 | a post is done exactly when the newest article is not nil and its parent is there, and is then stored under the next number with the text, date and parent it was given; of the others the newest gets it as next and a parent without replies as first child, and nothing else changes |
| NewsEffects.FailedPostIsGone | internal/mobius/threaded_news.go:202-214 | a post that could not be written is taken out again and every other article is as before |
| NewsEffects.BrokenPostLinks | internal/mobius/threaded_news.go:181-193 | a post that panics changes at most the next link of the newest article |
| NewsEffects.RefusedChangesNothing | internal/mobius/threaded_news.go:32-245 | an operation whose place is not there changes nothing, and how each of them says so |
| NewsEffects.StepKeepsText | internal/mobius/threaded_news.go:32-245 | every operation, with its write failing or not, leaves an article its text, date, parent and place unless it deletes it, creates or deletes what holds it, or posts under its number |
| NewsEffects.PostStays | internal/mobius/threaded_news.go:32-245 | so after any run without one of those a post is read with the text, date and parent it was given |
| NewsLinks.NewIDIsUnused | internal/mobius/threaded_news.go:161-175 | a new ID is in use exactly when the counter wraps onto an article numbered 0 |
| NewsLinks.PostKeepsLinks | internal/mobius/threaded_news.go:161-200 | a stored post keeps the link invariant (previous is k-1, next is 0 or k+1 and 0 only for the largest, parents are smaller, first children larger and set where a reply survives) if and only if there is an ID after the largest and the links the article comes with are those of one with that ID; for an unlinked article, if and only if there is an ID |
| NewsLinks.DanglingKeepsLinks | internal/mobius/threaded_news.go:181-193 | a post that panics keeps it, although it has linked the newest article to one that is never stored |
| NewsLinks.DeleteKeepsLinks | internal/mobius/threaded_news.go:233-236 | a delete keeps it for the articles that are left, though it relinks nothing |
| NewsLinks.StepKeepsLinks | internal/mobius/threaded_news.go:32-245 | an operation on the tree, however it ends, keeps the links of every category if and only if a post that is stored fits its category as above, and a delete that fails finds its article (or no article map); posts that panic or are rolled back, creations and removals always keep them |
| NewsLinks.RunKeepsLinks | internal/mobius/threaded_news.go:32-245 | in a run with writes failing at any point, the links are kept in every category after every operation if and only if each operation met that condition |
| NewsLinks.NeighboursAgree | internal/mobius/threaded_news.go:175-184 | articles with consecutive IDs point at each other |
| NewsLinks.Thread | internal/mobius/threaded_news.go:187-195 | following parents from any article goes to ever smaller IDs and ends at a top-level article or one whose parent is gone |
| NewsLinks.PostOnly | internal/mobius/threaded_news.go:161-200 | posts without deletes are numbered 1 to n in order, and each first child is the least reply |
| NewsListing.NewsArtListData.Write | hotline/news.go:138-212 | one write: what is shown, where the header ended and what is held, as a function of the same before |
| NewsListing.WriteReceives | hotline/news.go:138-212 | however the bytes come, the fields are those that one write of all of them would show |
| NewsListing.NewsArtListData.Read | hotline/news.go:121-136 | reading with buffers of any size gives the encoding piece by piece |
| NewsListing.WriteAll | hotline/news.go:138-212 | only the concatenation of the chunks matters |
| NewsListing.ListRoundTrip | hotline/news.go:121-212 | a list read out and written back is the same if and only if name and description are at most 255 bytes and the count fits 32 bits |
| NewsListing.GetNewsArtListData | hotline/news.go:47-87 | count is the number of articles, payload one record per article in strictly increasing ID order, whatever the order of the map; a panic exactly when an article is nil |
| NewsListing.OneListData | hotline/news.go:64-70 | the articles determine the list |
| NewsRows.ListTellsAll | hotline/news.go:47-107 | a reader that takes the list apart record by record finds, in the order of the IDs and with nothing left over, each article's ID, date, parent, title, poster and size modulo 2^16, if and only if titles and posters are at most 255 bytes |
| NewsCategories.NewsCategoryListData15.Write | hotline/news.go:286-350 | one write: what is shown and what is held, as a function of the same before, for any bytes; nil maps are made |
| NewsCategories.NewsCategoryListData15.Read | hotline/news.go:263-283 | reading with buffers of any size gives the encoding, with the number of articles and subcategories, piece by piece |
| NewsCategories.AllCutsShowTheSame | hotline/news.go:286-350 | all ways of cutting bytes into writes show what one write shows if and only if everything after the first record shows what the first record shows |
| NewsCategories.TwoRecordsShowTheSplit | hotline/news.go:346-348 | of any two complete records one write shows the first, a write each ends with the second |
| NewsCategories.SplitSeen | hotline/news.go:346-348 | two bundles for which the split is seen |
| NewsCategories.CategoryRoundTrip | hotline/news.go:263-350 | an encoded category is read back as it was sent if and only if its name is at most 255 bytes, and the count behind its type is that of articles and subcategories modulo 2^16 |
| Streams.Drain | hotline/read_helper.go:8-15 | any buffers, one byte string |
| Framing.Stable | hotline/transaction.go:208-223 | bytes after a token do not change it, for each of the three split functions |
| Framing.AdvancesByHeader | hotline/transaction.go:208-223 | a step advances by at least 20 bytes if and only if the announced size is at most 2^32-21 |
| Framing.Scanner.Scan | hotline/server.go:656-656 | whatever sizes the reads have, the next token is that of one look at the whole stream, up to 65536 bytes |
| Framing.Scanner.ScanAll | hotline/server.go:656-656 | the tokens of the loop are those of one pass over the stream |
| Framing.FramesAreTheStream | hotline/transaction.go:208-223 | tokens and leftover concatenate to the stream |
| Framing.TokensAreBounded | hotline/field.go:98-110 | no token is empty or longer than 65536 bytes |
| Framing.TokensStandAlone | hotline/field.go:98-110 | every token long enough to hold its size is its own first token |
| Transactions.Field.Write | hotline/field.go:163-180 | accepts exactly the byte strings that hold the announced data, and takes that much |
| Transactions.FieldRoundTrip | hotline/field.go:157-180 | a field is written back as it was if and only if it announces its own size |
| Transactions.NewFieldSized | hotline/field.go:84-95 | NewField announces the right size if and only if the data is shorter than 65536 bytes |
| Transactions.FieldTokensAccepted | hotline/field.go:98-180 | Field.Write takes every token of FieldScanner whole |
| Transactions.FieldsRoundTrip | hotline/transaction.go:186-196 | fields that announce their sizes are all read back from their encodings |
| Transactions.Transaction.Write | hotline/transaction.go:162-203 | header as parsed and parsed fields appended; on an error the header and the fields before the one that is missing stay, and too short a token changes nothing; or out of range |
| Transactions.Transaction.Size | hotline/transaction.go:259-270 | the payload size is that of the encoded fields and their count |
| Transactions.Transaction.Read | hotline/transaction.go:228-256 | gives the encoding piece by piece, and something in every nonempty buffer until the end |
| Transactions.Transaction.Send | hotline/transaction.go:228-256 | any sequence of nonempty buffers gives one byte string |
| Transactions.TransactionCutOff | hotline/transaction.go:208-223 | transactionScanner cuts a sent transaction off exactly, whatever follows it |
| Transactions.TransactionRoundTrip | hotline/transaction.go:162-256 | Write reads the same header and field list from what Read gives |
| Transactions.TokensNeverOutOfRange | hotline/transaction.go:162-223 | on every token of transactionScanner, even when the size wraps, Write either finds it too short or finds its length to be the token's |
| Transactions.AcceptedExactly | hotline/transaction.go:162-203 | a transaction that is all there is accepted if and only if as many sized fields as it announces stand one after the other in its payload, and then with its own header and those fields |
| Transactions.Serve | hotline/server.go:656-668 | the transactions handled are those of one pass over the stream, up to the first refused |
| Transactions.ServingNeverPanics | hotline/server.go:656-668 | no stream, whatever its sizes say, makes the loop slice out of range |
| Transactions.SentIsServed | hotline/server.go:656-668 | any list of transactions sent back to back is handled in order, and what follows as if it stood alone |
| Transactions.RefusedEndsIt | hotline/server.go:656-668 | a token that is refused ends the connection: the transactions before it have been handled and nothing after it is |
| FlatFile.FlatFileInformationFork.Write | hotline/flattened_file_object.go:158-187 | the parsed fork, or a panic where a slice ends past the capacity, with the uint16 sums as they wrap |
| FlatFile.InfoRoundTrip | hotline/flattened_file_object.go:137-187 | an information fork is read back from its encoding if and only if its name is at most 65461 bytes; a longer name whose length fits two bytes makes the parser panic |
| FlatFile.WholeSidecar | hotline/file_wrapper.go:239-251 | a stored sidecar that holds a whole fork is read as that fork, whatever capacity the slice has beyond it |
| FlatFile.ShortSidecarRead | hotline/file_wrapper.go:239-251 | a sidecar of 1 to 70 bytes does not panic: zeros up to the capacity make it a fork without a name |
| FlatFile.ReadFfo | hotline/flattened_file_object.go:252-279 | reading an object from a stream is parsing the stream's front, and leaves the rest |
| FlatFile.FfoRoundTrip | hotline/flattened_file_object.go:220-279 | an object is read back from its encoding, whatever follows it |
| ResumeData.BinaryMarshal | hotline/file_resume_data.go:66-77 | the loop writes header and forks in order |
| ResumeData.UnmarshalBinary | hotline/file_resume_data.go:79-98 | reads as many forks as the low byte of the count says, or panics exactly when they are not all there |
| ResumeData.ResumeDataRoundTrip | hotline/file_resume_data.go:56-98 | resume data is read back as written if and only if it has fewer than 256 forks |
| ResumeData.OffsetRoundTrip | internal/mobius/transaction_handlers.go:1785-1792 | the offset a client reads is the one the server reported, modulo 2^32 |
| Uploads.CopyN | hotline/transfer.go:44-46 | all n bytes or those there are, in order, counted, with an error exactly when there are fewer |
| Uploads.ReceiveFile | hotline/transfer.go:32-58 | each target gets its fork, the counter rises by the two forks' bytes, and the rest of the stream is left |
| Uploads.UploadTarget.UploadHandler | hotline/file_transfer.go:303-367 | outcome, files and counter of one upload attempt, with any call that opens, closes, looks up or renames a file failing |
| Uploads.UploadTarget.ReceiveInto | hotline/file_wrapper.go:105-130 | data is appended to .incomplete, the information fork replaced, the resource fork overwritten |
| UploadRuns.CutStreamReceived | hotline/transfer.go:32-58 | a client's stream cut at any byte gives a prefix of each fork, and all of them exactly when it is not cut |
| UploadRuns.CutStreamKept | hotline/transfer.go:32-58 | of such a stream every byte of the forks that has come is kept, no more and no less |
| UploadRuns.OfferedOffset | internal/mobius/transaction_handlers.go:1779-1797 | the offset a client takes from the reply is the size of the partial file |
| UploadRuns.OfferAnswers | internal/mobius/transaction_handlers.go:1766-1797 | a request to upload is accepted exactly when the file is not finished, one to resume exactly when there is part of it, and then with the size of that part modulo 2^32 |
| UploadRuns.AttemptKeepsConsistent | hotline/file_transfer.go:303-367 | every attempt keeps what the server has right and loses nothing of it, and finishes the file if and only if all the client sends from the offered offset arrives and nothing fails |
| UploadRuns.AttemptAdvances | hotline/file_transfer.go:303-367 | an attempt takes .incomplete on by exactly the data that arrives, reports success if and only if it has finished the file, and leaves the sidecars alone unless forks are preserved |
| UploadRuns.FinishedIsKept | hotline/file_transfer.go:313-316 | whatever is sent for a finished file is refused and changes nothing |
| UploadRuns.UploadArrives | hotline/file_transfer.go:303-367 | over any run of attempts cut anywhere and failing anywhere, .incomplete is a prefix of the source and the final file is the source; it is there at the end if and only if some attempt was neither cut nor failed |
| UploadRuns.FinalStays | hotline/file_transfer.go:313-316 | a finished file is never changed by later attempts |
| UploadRuns.NotResuming | hotline/file_transfer.go:322-326 | starting over ends with the source if and only if there was nothing to resume |
| Downloads.File.Flatten | hotline/file_wrapper.go:210-281 | sizes, fork count and information fork from the stored file, an error when a file cannot be looked at, or a panic on a malformed sidecar |
| Downloads.File.TransferSize | hotline/flattened_file_object.go:104-121 | the uint32 sum of object, data and resource fork less the offset |
| Downloads.AnnounceDownload | internal/mobius/transaction_handlers.go:1571-1634 | the transfer size in the reply: that sum, or the data fork's size for a preview; no answer when path or file cannot be made out; a panic on resume data without a fork |
| Downloads.OffsetRead | hotline/file_resume_data.go:39-98 | the offset the server takes from resume data is the one it was made for, modulo 2^32 |
| Downloads.RequestIsSent | internal/mobius/transaction_handlers.go:1571-1634 | from a client's request to what it is sent: with resume data for n, read modulo 2^32, the object and then data[n..] and the resource fork, counted as that much; the size announced in the same reply is the number of bytes sent modulo 2^32, and 16 less for a fresh download; a failure behind the object when n is past the end |
| Downloads.DownloadHandler | hotline/file_transfer.go:247-301 | the bytes sent and counted, for fresh, resumed and preview downloads, and on a missing or too short file |
| Downloads.SizesAgree | internal/mobius/transaction_handlers.go:1595-1631 | announced equals sent modulo 2^32 when resuming and is 16 less when starting; the counter rises by the forks' bytes |
| Downloads.DownloadReceived | hotline/file_transfer.go:247-301 | a fresh download fed to receiveFile reproduces the forks, and with two forks leaves exactly the resource header and bytes |
| Downloads.MadeUpInfoArrives | hotline/file_wrapper.go:252-267 | of a file without a sidecar a downloader learns name, type, creator and date as the server has them |
| Downloads.ResumedReceived | hotline/file_transfer.go:247-301 | a resumed download fed to receiveFile gives the information fork, and the tail of the data followed by as many bytes of the resource fork as were skipped; it fails when there are fewer |
| Downloads.ResumedJoins | hotline/file_transfer.go:247-301 | what was there and what is received make up the file if and only if nothing was skipped or there is no resource fork |
| Downloads.DownloadedThenUploaded | hotline/file_transfer.go:247-367 | a file downloaded here and uploaded to another server arrives with its data, information fork and (given a sidecar) resource fork |
| Paths.JoinedOnce | hotline/file_path.go:115-118 | joining item by item equals joining everything and cleaning once |
| Paths.SubPathIs | hotline/file_path.go:115-118 | the joined items are all their elements, normalised below a root |
| Paths.ReadPathIs | hotline/file_path.go:107-138 | the result is the cleaned root, then the items with ".." clamped, then the file name clamped on its own |
| Paths.NeverLeavesRoot | hotline/file_path.go:120-137 | the root's elements come first and only ordinary names follow |
| CleanedPaths.CleanIsClean | hotline/file_path.go:117-117 | path.Clean gives levels up and then names, none up below a root, is never empty, keeps whether the path is rooted, and gives itself back |
| PathCodec.EncodeFilePath | hotline/files.go:203-219 | the loop encodes the sections of the path in order |
| ItemScanner.PathScanner.Scan | hotline/file_path.go:65-77 | one scan by a split function that does not check its bounds: the token, the old token, or a panic, from what is in the 4096-byte buffer |
| ItemScanner.ScanFirst | hotline/file_path.go:29-36 | an item that is there is found, in the buffer or in the next one, or the scan panics, by where in the buffer it starts and how long it is |
| ItemScanner.OneWindow | hotline/file_path.go:29-36 | up to 4096 bytes no item is cut off |
| PathCodec.FilePath.Write | hotline/file_path.go:55-84 | item count set and the items of the data appended, all of them or those before the error or panic |
| PathCodec.FilePathRoundTrip | hotline/file_path.go:29-84 | the sections are recovered if and only if each is at most 252 bytes, there are fewer than 65536, and none runs past the buffer that holds its start; others that fit their length bytes make it panic |
| PathCodec.DecodeNewsPath | hotline/field.go:136-154 | the path's sections, with empty or repeated ones where the scan finds none, or a panic |
| PathCodec.NewsPathRoundTrip | hotline/news.go:357-364 | the same with names of up to 255 bytes |
| PathCodec.CountDecides | hotline/file_path.go:55-84 | the count in front decides how many sections are taken; announcing more than there are makes one decoder refuse the path and the other make empty sections up |
| PathCodec.LongPathPanics | hotline/file_path.go:35-35 | seventeen sections of 252 bytes make both decoders panic |
| PathCodec.ReadPath | hotline/file_path.go:107-138 | the path that root, encoded path and file name lead to, or the error, or a panic |
| PathCodec.ResolvedUnderRoot | hotline/file_path.go:107-138 | whatever bytes are sent as path and file name, a resolved path is under the root |
| PathCodec.EncodedPathResolved | hotline/file_path.go:107-138 | an encoded path resolved by ReadPath is the root, the whole path clamped at once, and the file name |
| FolderPaths.FormattedPath | hotline/file_transfer.go:191-213 | the joined segments, at most as many as announced |
| FolderPaths.SegmentsExactly | hotline/file_transfer.go:176-213 | the sections are found again if and only if each is at most 255 bytes and there are fewer than 65536 |
| FolderPaths.ReadFolderItem | hotline/file_transfer.go:547-560 | reading an item's header is parsing the stream's front, with the uint16 difference as it wraps |
| FolderPaths.FileHeaderRoundTrip | hotline/file_transfer.go:215-245 | a sent header is read with its size and kind; its path ends where it does and its segments are the sections of the name if and only if names fit a byte and the path without its count a uint16, and a longer one runs over into what follows |
| FolderPaths.DecodersAgree | hotline/files.go:203-219 | the three decoders all recover what the encoder was given if and only if it fits the strictest of them |
| FolderTargets.ItemPathIs | hotline/file_transfer.go:562-566 | the path of an item is the folder's elements followed by those of the joined segments, cleaned together |
| CleanedPaths.UpsGoBack | hotline/file_transfer.go:562-566 | levels up take back names of the folder from the end, and then stop at the root or lead further up |
| FolderTargets.ItemUnderFolder | hotline/file_transfer.go:562-566 | an item is put under the folder if and only if the levels its segments lead up stop within the folder's names or at the root and its segments name again what was taken back |
| FolderTargets.ItemBesideFolder | hotline/file_transfer.go:191-213 | inputs for which it is not: in /dir/folder the segments ".." and another name |
| Tracker.ReadServerRecord | hotline/tracker.go:176-217 | reading a record is parsing the stream's front |
| Tracker.RecordRoundTrip | hotline/tracker.go:107-116 | a record is read back from its encoding, whatever follows |
| Tracker.TrackerConn.GetListing | hotline/tracker.go:118-173 | greeting sent; the list, or the error, that the answer holds |
| Tracker.TrackerConn.ReadBatches | hotline/tracker.go:147-172 | the loop over batches, terminating on the servers still to come |
| Tracker.BatchesListed | hotline/tracker.go:150-170 | where a header is due, batches are listed as they are if and only if none is empty |
| Tracker.ListedInOrder | hotline/tracker.go:118-173 | records cut into batches are listed whole and in order, and nothing after them read, if and only if no batch but the first is empty |
| Tracker.CutAnswerIsShort | hotline/tracker.go:118-173 | an answer that is listed whole is an error as soon as any byte of it is missing |
| Tracker.EmptyBatchMisread | hotline/tracker.go:150-170 | after an empty batch where a header was due everything is read as records |
| Tracker.HeaderListedAsServer | hotline/tracker.go:150-170 | three batches of which the second is empty: the third's header is listed as a server |
| TransferTables.ClientFileTransferMgr.Get | hotline/client_conn.go:89-101 | every transfer of a type once, in some order |
| TransferTables.MemFileTransferMgr.Add | hotline/file_transfer.go:61-70 | the new state of the server's table and of all clients' tables |
| TransferTables.MemFileTransferMgr.Delete | hotline/file_transfer.go:79-89 | the new state of all tables, or a panic that changes nothing, exactly when the number stands for none |
| TransferTables.AddAgrees | hotline/file_transfer.go:61-70 | adding keeps the tables in agreement if and only if the number was free or the same owner's |
| TransferTables.DeleteAgrees | hotline/file_transfer.go:79-89 | deleting keeps them in agreement |
| TransferTables.DeletedEverywhere | hotline/file_transfer.go:79-89 | after Delete the number is in no table, the server's or a client's, and every other number stands in every table for what it stood for |
| TransferTables.AddedWhereItBelongs | hotline/file_transfer.go:61-70 | after Add the transfer is under its number in the server's table and its own client's, and nothing else has changed |
| TransferTables.ListedWhereItBelongs | hotline/file_transfer.go:61-89 | a transfer is in the server's table if and only if it is in its own client's under its own type and in no other |
| TransferTables.RunAgrees | hotline/file_transfer.go:61-89 | the tables agree throughout a run if and only if no Add reused the number of another owner's transfer |
| TransferTables.ListedSinceAdded | hotline/file_transfer.go:61-89 | over any run from an empty table, a transfer is in the server's table if and only if the last operation on its number was its own Add |
| TransferTables.HeldSinceAdded | hotline/file_transfer.go:61-89 | and, when no number was reused by another owner, in exactly its own client's table under its type |
| IdleClients.SetChangesOneFlag | hotline/user.go:26-35 | setting a flag sets it and no other |
| IdleClients.ClientConn.SendAll | hotline/client_conn.go:110-114 | one notice to every client in the list, in order |
| IdleClients.ClientConn.HandleTransaction | hotline/client_conn.go:116-148 | the handler changes the client and its answers go out; anything but a keepalive then resets the idle time, and brings a client that is away by then back with a notice |
| IdleClients.ClientConn.Tick | hotline/server.go:429-444 | ten seconds more, and away with a notice when that first exceeds the limit |
| IdleClients.Server.KeepaliveTick | hotline/server.go:428-446 | the timer's loop does that for every client and sends the notices in order |
| IdleRuns.TickIsTheLoop | hotline/server.go:428-446 | in runs a tick is what that loop makes of the clients and sends |
| IdleRuns.RequestIsHandled | hotline/client_conn.go:130-147 | in runs a request changes and announces its own client as handleTransaction does, and no other |
| IdleRuns.AwayExactlyWhenIdle | hotline/server.go:419-448 | over any run from an empty server, every client's idle time is ten times the ticks since it joined or last did something, and away means more than 300 |
| IdleRuns.TurnsAwayAtTick31 | hotline/server.go:419-448 | a client turns away exactly at the 31st tick and comes back exactly with its next activity |
| IdleRuns.OtherFlagsKept | hotline/user.go:31-35 | over any run, every other flag is what a handler last made of it |
| IdleRuns.OneNoticePerTurn | hotline/client_conn.go:110-147 | over any run, a client is sent exactly one notice about a client per change of its away flag while both are there |
| IdleNotices.NoticeIsCurrent | hotline/server.go:433-441 | every notice of a tick or a request carries the flags, name and icon its user has after it |
| IdleNotices.ToldTheTruth | hotline/client_conn.go:116-148 | over any run, the away flag a client was last told of another, by a notice or when the later of them joined, is the one that has now |
| IdleNotices.ThereAsJoined | hotline/client_manager.go:85-100 | over any run, a client is in the list if and only if the last to come or go under its ID came, with the name and icon it came with |
| IdleNotices.EveryAnswerSent | hotline/client_conn.go:117-125 | over any run, the answers of all handlers go out once each and in order |

## Left out

- Paths.ReadPathIs: for decoders that work byte by byte without failing and keep ASCII; stateful or failing decoders are not modelled. `path.Clean` is modelled by elements, as its documentation describes it.
- IdleClients.ClientConn.HandleTransaction: which handler a transaction has is not looked into; what it makes of its client and its answers are parameters, what it does to the server and to other clients is left out, and in runs a handler that sets a flag is a `Mark` step.
- UploadRuns.UploadArrives: for clients that resume whenever part of the file is there (`NotResuming` covers the others) and files below 2^32 bytes.
- Uploads.UploadTarget.UploadHandler: every call that opens, closes, looks up or renames a file may fail; a disk that fails halfway through receiving is not modelled.
- Downloads.DownloadHandler: a connection that fails while a file is sent is not modelled.
- Sharing: `GetArticle` and the range loops hand out pointers into the tree, and maps in the tree are shared; here the tree and its articles are values in a field, so such aliases are not captured. `GetArticle`, `GetCategories` and `NewsItem` themselves are lookups.
- The news file: saving and loading YAML is the identity on the tree; marshalling, the temporary file and the rename are one given outcome, and the rename is atomic.
- The file system: names map to contents.
- Readers that return data together with the end of the stream are taken to return the data first.
- Mutexes, goroutines and channels: each locked body is one step, and the outbox is a sequence.
- Reference numbers, times and file type codes are parameters.
- Resumed folder downloads and the resuming branch of folder uploads: the source announces and logs differently from what it sends and keeps there.
- `MemClientMgr` as an object: runs of `IdleRuns` have the joins, leaves and the order of its list, under given IDs.
- `transfer.Write`, `SetComment`, `TrackerRegistration.Read`, `DecodeInt`, `User`, dates, file lists: fixed layouts that would only add easy members.
- Accounts, bans, chat, flat news, agreement, statistics, the HTTP interface, Redis, TLS, listeners, rate limits, logging and the macOS application.
