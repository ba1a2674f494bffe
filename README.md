# Gmail attachment extractor — a Dafny model of its core

The extractor lists the Gmail messages that carry attachments, fetches each
message, and builds a `Message` that holds the message's id, its subject and
its attachments. It keeps text and CSV logs on disk. This project models the
deterministic logic inside that plumbing:

- `message.dfy` (module `Messages`): the `Message` container, a class whose
  attachment list only grows by appending, and the `Attachment` record.
- `gmail_service.dfy` (module `GmailService`): what `GmailService` does with
  the API's answers.
  - `get_label_ids` maps the listed labels to their ids.
  - `get_message_ids` follows page tokens and collects message ids page by page.
  - `get_message` takes the subject from the last `subject` header, in any
    case. It turns every part with a filename into an attachment, using inline
    data or fetching the data by attachment id.
  - The API's answers are inputs. The listing answers form a chain in which
    every page with a `nextPageToken` is followed by the answer to the request
    that sends it. The message answer is optional; `None` is a request that
    raised `HttpError`. The attachment service is a map from attachment id to
    data, and an unknown id answers with `HttpError`.
- `logger.dfy` (module `Logger`): `TxtLogger` and `CsvLogger`.
  - The ".txt"/".csv" suffix normalisation.
  - Append-only writes and reads over an in-memory file system. That file
    system is a class with a map from path to contents and a set of existing
    directories.
  - `os.path.dirname` as POSIX computes it.
  - `str.splitlines` for text whose only line boundary is `'\n'`.
- `wrappers.dfy` (module `Wrappers`): the `Option` type the others share.

Facts about the code that shape the model:

- The writers never create a directory. `os.makedirs` runs only when
  `os.path.isdir` already holds (gmail_attachment_extractor/logger.py:50-52,
  79-81), so a write into a missing directory fails at `open`. The model
  proves exactly that: `dirs` never changes, and a write succeeds only when
  the parent directory exists.
- A `Message` is built by appending attachments one at a time.
- The driver's TODO comments (gmail_attachment_extractor/gmail_attachment_extractor.py:12-13)
  describe no implemented behaviour and are not modelled.

## Model

| member | source | states |
|---|---|---|
| `Messages.Message.constructor` | gmail_attachment_extractor/message.py:4-7 | a new message has exactly the given id and subject and no attachments |
| `Messages.Message.AddAttachment` | gmail_attachment_extractor/message.py:10-11 | the list becomes the old list followed by the attachment; its length grows by one; earlier entries, id and subject are unchanged |
| `GmailService.GetLabelIds` | gmail_attachment_extractor/gmail_service.py:24-29 | the label ids come in listed order, one per label; without a `labels` key the result is empty; an HttpError from the listing propagates (None) |
| `GmailService.AttachmentQuery` | gmail_attachment_extractor/gmail_service.py:80 | the query sent is the caller's query followed by " has:attachment" |
| `GmailService.GetMessageIds` | gmail_attachment_extractor/gmail_service.py:78-90 | the loop returns exactly the ids of the whole answer chain, or None when a listing request raised HttpError; the requests sent are the first one without a token, then one per page token, all with the extended query |
| `GmailService.CollectedIdsConcatenatePages` | gmail_attachment_extractor/gmail_service.py:82-89 | the collected ids are the concatenation, in page order, of each page's ids, and a page without `messages` adds nothing; ids are produced exactly when no request failed |
| `GmailService.RequestsFollowTokens` | gmail_attachment_extractor/gmail_service.py:81-87 | paging continues exactly while the latest answer has a `nextPageToken`; each further request sends that token with the same query |
| `GmailService.NoSubjectHeaderMeansEmpty` | gmail_attachment_extractor/gmail_service.py:39-42 | when no header is named "subject" in any case, the subject is "" |
| `GmailService.SubjectIsLastMatch` | gmail_attachment_extractor/gmail_service.py:39-42 | otherwise the subject is the value of the last header named "subject" |
| `GmailService.SubjectHeaderNames` | gmail_attachment_extractor/gmail_service.py:41 | a header supplies the subject exactly when its name has seven characters, each the letter of "subject" in lower or upper case |
| `GmailService.SelectedAppend` | gmail_attachment_extractor/gmail_service.py:51-52 | picking attachment parts keeps part order: the picks from a concatenation are the concatenated picks |
| `GmailService.SelectedMembers` | gmail_attachment_extractor/gmail_service.py:51-52 | a part is picked exactly when it is one of the parts and its filename is non-empty |
| `GmailService.ResolvedAttachments` | gmail_attachment_extractor/gmail_service.py:51-70 | on success there is one attachment per picked part, in part order, named by the part's filename and holding that part's data |
| `GmailService.ResolveSucceedsIff` | gmail_attachment_extractor/gmail_service.py:54-59 | building the attachments succeeds exactly when the data of every picked part can be obtained |
| `GmailService.FirstFailureDecides` | gmail_attachment_extractor/gmail_service.py:51-75 | on failure the exception is that of the first picked part, in part order, whose data cannot be obtained |
| `GmailService.RaisedPersists` | gmail_attachment_extractor/gmail_service.py:51-75 | once a part raises, the parts after it change nothing |
| `GmailService.OnlyMissingDataIsLookedUp` | gmail_attachment_extractor/gmail_service.py:54-59 | the attachment service is only asked for ids of parts without inline `data`; two services that agree on those ids give the same result |
| `GmailService.InlineDataNeedsNoFetch` | gmail_attachment_extractor/gmail_service.py:54-55 | when every picked part has inline data, the result is the same as with no attachment service at all |
| `GmailService.GetMessage` | gmail_attachment_extractor/gmail_service.py:32-75 | a message is returned exactly when all data could be obtained. It carries the requested id, the last subject header's value, and the attachments in part order. HttpError on the message or an attachment returns nothing. A part with neither data nor attachment id raises KeyError |
| `Logger.WithSuffix` | gmail_attachment_extractor/logger.py:48-49 | the normalised path always ends with the suffix and starts with the given path |
| `Logger.SuffixAddedOnlyWhenMissing` | gmail_attachment_extractor/logger.py:48-49 | a path is unchanged exactly when it already ends with the suffix; otherwise the suffix is appended once |
| `Logger.WithSuffixIdempotent` | gmail_attachment_extractor/logger.py:62-63 | normalising twice gives the same path as normalising once |
| `Logger.SuffixedPathSameFile` | gmail_attachment_extractor/logger.py:77-78 | a path without the suffix and that path with the suffix normalise to the same file |
| `Logger.AppendToFile` | gmail_attachment_extractor/logger.py:51-56 | no directory is created; the append succeeds exactly when the path is not a directory and its parent exists; on success only that file changes, gaining the text at its end; the file-system invariant (no file is a directory, every file sits in an existing directory) is kept |
| `Logger.TxtWrite` | gmail_attachment_extractor/logger.py:47-56 | appends `data` + "\n" to the ".txt" file and keeps earlier contents; no directory is created; for data without a line boundary, when the old contents are empty or end with a line break, a read afterwards gives the old lines followed by `data` |
| `Logger.TxtRead` | gmail_attachment_extractor/logger.py:59-69 | a missing file reads as no lines; a directory path fails; the lines of a log-shaped file rebuild its contents exactly |
| `Logger.TxtReadSameLog` | gmail_attachment_extractor/logger.py:62-63 | `p` and `p + ".txt"` read the same log when `p` lacks the suffix |
| `Logger.SplitLinesAppend` | gmail_attachment_extractor/logger.py:55-67 | write-then-read round trip: when the old contents are empty or end with a line break, appending a line without line boundaries gives the earlier lines followed by it |
| `Logger.SplitJoin` | gmail_attachment_extractor/logger.py:55-67 | lines without line breaks, written one after another, read back as the same lines |
| `Logger.JoinSplit` | gmail_attachment_extractor/logger.py:67 | text that is empty or ends with a line break is rebuilt exactly from its lines |
| `Logger.CsvWrite` | gmail_attachment_extractor/logger.py:76-86 | appends the rendered row to the ".csv" file, with the same directory rule and the same invariant as the text log |
| `Logger.CsvRead` | gmail_attachment_extractor/logger.py:89-100 | a missing ".csv" file reads as no rows; a directory path fails |

## Left out

- OAuth credential loading, refresh and token storage (`__set_creds`) are external Google libraries and file I/O.
- The Gmail API client and its transport are not modelled. Its answers are inputs: the listing chain, the optional message payload and the attachment map.
- `base64.urlsafe_b64decode` is a library call. An attachment's content is the `data` text as delivered, and a decoding error is not modelled.
- `GetMessage`: `print` of the caught error is not modelled; only the fact that it happened is (`HttpErrorPrinted`).
- `GetMessage`: header names are lowered with ASCII case folding, not Python's full Unicode `str.lower`.
- `GetMessage`: a payload whose `headers` or `parts` key is missing is given as an empty list. That matches `payload.get(..., [])`. A missing `payload`, `filename` or `body` key (a KeyError in the code) cannot be expressed in the input types.
- `GetMessage`: a header without `name` (AttributeError from `None.lower()`, gmail_service.py:41) and a header without `value` (the subject becomes `None`, line 42) cannot be expressed: every header has a name and a value.
- `GetMessage`: an attachment answer without `data` (KeyError, gmail_service.py:59) cannot be expressed: the attachment service maps each known id to its data.
- `GetMessageIds`: a message entry without `id` (KeyError, gmail_service.py:84, 89) cannot be expressed: every `MessageRef` has an id.
- `GetLabelIds`: a label entry without `id` (KeyError, gmail_service.py:28) cannot be expressed: every `Label` has an id.
- `GetMessage`: only the top-level parts are examined, as in the code. Nested multipart parts are not part of the input type.
- `TxtRead`, `SplitLines`: only `'\n'` is treated as a line break. Python's `splitlines` also splits on `\r`, `\r\n` and the other boundaries of `IsLineBoundary`, and text mode translates `\r\n`. The round-trip lemmas require written data free of every such boundary, so they hold for the program as well; a file with other boundaries already in it is read differently.
- `CsvWrite`, `CsvRead`: the `csv` module's row encoding and parsing are foreign code. The writer takes the rendered row text, and the reader takes the parser as a function.
- The file system treats each path string as a distinct path. `.`/`..` segments, repeated slashes and symbolic links are not resolved. Read and write failures other than a missing directory or a directory path (permissions, disk full) are not modelled.
- `Attachment.save` (gmail_attachment_extractor/attachment.py) and `__store_attachment` are disk writes.
- The driver script gmail_attachment_extractor/gmail_attachment_extractor.py is a top-level I/O loop with no logic of its own.
- The root gmail_attachment_extractor.py repeats the listing and part loops of gmail_service.py.
- The abstract `Logger` base class has no behaviour.
