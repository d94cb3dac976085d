# Mon Vieux Grimoire book store: a Dafny model

This project models the core of the book-rating backend: the book handlers of
`controllers/book.js`, the Book schema and its `calculateAverageRating` method
(`models/book.js`), and the upload naming of `middleware/multer-config.js`.

- `wrappers.dfy`: `Option`, which stands for a JavaScript value that may be absent (`undefined`, or `NaN` for a number).
- `upload.dfy` (module `Upload`) covers several pieces:
  - the `MIME_TYPES` table;
  - the `[\s.]+` → `_` replacement, written as a left-to-right scan;
  - the decimal timestamp;
  - the stored filename `name + Date.now() + "." + extension`;
  - the upload and resized paths, and the files left after a successful resize;
  - a corrected naming scheme with the timestamp first, from which the instant can be read back.
- `book_model.dfy` (module `BookModel`) covers the Book record and the grade fold `TotalGrade`. `HasRequiredFields` says the schema's required fields are present. `ValidBook` is what `save` accepts: those fields are present and no required String is empty. It also holds `AverageRating`, where `0/0` and a missing grade are None. Finally, it has the in-memory document class `BookDocument`, whose `PushRating` and `CalculateAverageRating` assign its fields.
- `book_urls.dfy` (module `BookUrls`) covers the `imageUrl` template and `String.prototype.split` with a non-empty separator. The pieces are proved to be cut exactly at the successive first occurrences of the separator. It also models `split("/images/")[1]`, which gives "undefined" when the piece is missing.
- `book_controller.dfy` (module `BookController`) holds the `BookStore` class. It has a map from id to Book, a fresh-id counter and the set of files in `images/`. Its methods are `CreateBook`, `GetOneBook`, `ModifyBook`, `DeleteBook` and `AddBookRating`. Each returns `Sent(status)`, or `Rejected` when an exception escapes a catch block and the handler's promise rejects without writing a response.

`controllers/book.js` calls `fs.unlinkSync` (lines 37, 77, 100) but never binds `fs`. The store's constant `fsInScope` chooses between two behaviours:
- `false` is the code as written: every unlink raises a ReferenceError.
- `true` is the evidently intended code: unlinking a missing file raises ENOENT.

Every handler contract is stated for both values.

Where the API's design description and the code disagree, the model follows the code:
- `modifyBook` and `deleteBook` answer 500 for an unknown id, not 404. Reading `userId` of the `null` that `findOne` returns raises a TypeError.
- `modifyBook` copies a payload `userId` into the stored book. Only `_userId` is deleted.
- `addBookRating` answers 500 for a grade outside [0, 5].
- `addBookRating` does not recompute `averageRating`.
- `updateOne` runs no validators, so `modifyBook` can store a book that `save` would reject. The store invariant is therefore only that the required fields are present. A later `addBookRating` on such a book fails its `save` and answers 500.
- `deleteBook` unlinks only the file named in the link, `images/<stored name>`. It never removes the `resized_` copy.

The expressions of the source are defined once, by these functions, and the rows below state what is proved about them:
- `Upload.StoredFilename`: the stored name, `name + Date.now() + "." + extension` (middleware/multer-config.js:17-21).
- `BookUrls.ImageUrl` and `BookUrls.ImageFilename`: the link template (controllers/book.js:30, 61-63) and `split("/images/")[1]` (controllers/book.js:76, 99).
- `BookController.CreatedBook`: the document `createBook` builds (controllers/book.js:18-31).
- `BookController.ModifyPayload` and `BookController.Updated`: the payload `modifyBook` builds (controllers/book.js:58-67) and the `updateOne` merge (controllers/book.js:80-83).
- `BookController.ValidGrade`: the grade check (controllers/book.js:129-133).
- `BookModel.HasRequiredFields` and `BookModel.ValidBook`: the schema's required fields, and what `save` accepts (models/book.js:3-9).

## Model

| member | source | states |
|---|---|---|
| Upload.Replace | middleware/multer-config.js:18 | the replaced name has no whitespace and no '.', and is never longer than the original |
| Upload.ReplaceRun | middleware/multer-config.js:18 | a non-empty run of whitespace/'.' becomes exactly one "_", and nothing when it continues a run |
| Upload.ReplaceConcat | middleware/multer-config.js:18 | replacing a concatenation is replacing each part, the second continuing the first's run state |
| Upload.SanitiseConcat | middleware/multer-config.js:18 | characters outside runs are kept in order: the name splits at any boundary that is not inside a run |
| Upload.SanitiseRun | middleware/multer-config.js:18 | a name made of one run of separators becomes "_" |
| Upload.SanitiseKeepsClean | middleware/multer-config.js:18 | a name without whitespace or '.' is unchanged |
| Upload.SanitiseIdempotent | middleware/multer-config.js:18 | sanitising twice equals sanitising once |
| Upload.SanitiseFixedPoints | middleware/multer-config.js:18 | a name is unchanged exactly when it has no whitespace and no '.' |
| Upload.Decimal | middleware/multer-config.js:20 | the timestamp's numeral is non-empty, all digits, and starts with '0' only for 0 |
| Upload.DecimalRoundTrip | middleware/multer-config.js:20 | reading the numeral back gives the timestamp |
| Upload.DecimalInjective | middleware/multer-config.js:20 | distinct timestamps have distinct numerals |
| Upload.ExtensionTable | middleware/multer-config.js:6-10 | image/jpg and image/jpeg map to jpg, image/png to png, every other type has no entry |
| Upload.ExtensionText | middleware/multer-config.js:19-20 | the written extension is jpg, png or "undefined", and "undefined" exactly for an unknown type |
| Upload.ExtensionTextClean | middleware/multer-config.js:19-20 | the written extension contains no whitespace and no '.' |
| Upload.StoredFilenameShape | middleware/multer-config.js:17-21 | the stored name has no whitespace, its only '.' is the one before the extension, and a known type ends in ".jpg" or ".png" |
| Upload.StoredFilenameDistinctInTime | middleware/multer-config.js:20 | the same original name uploaded at different instants gets different stored names |
| Upload.StoredFilenamesCanCollide | middleware/multer-config.js:18-20 | different uploads can get the same stored name ("x1" at 23 and "x" at 123) |
| Upload.SameWidthNoCollision | middleware/multer-config.js:17-21 | between timestamps with numerals of the same length, equal stored names have the same sanitised name, instant and extension |
| Upload.ResizedPathDistinct | middleware/multer-config.js:35 | the resized path differs from the upload path, the stored name follows "images/resized_", and the resized path is the upload path of "resized_" + name |
| Upload.AfterResize | middleware/multer-config.js:33-44 | after a successful resize the files are exactly the old ones without the upload's path, plus the resized copy |
| Upload.TimestampFirstRecoversTime | middleware/multer-config.js:20 | with the timestamp first, reading the leading digits back gives the timestamp |
| Upload.TimestampFirstDistinctInTime | middleware/multer-config.js:20 | with the timestamp first, uploads at different instants get different names whatever their original names |
| BookModel.ValidityIgnoresRatings | models/book.js:3-17 | ratings and the average never decide whether a book passes the schema or has its required fields |
| BookModel.TotalGrade | models/book.js:22 | the sum is a number exactly when every rating has a grade |
| BookModel.AverageRating | models/book.js:20-24 | the average is a number exactly when there is at least one rating and every rating has a grade |
| BookModel.TotalRemove | models/book.js:22 | the sum equals the sum without any one rating, plus that rating's grade |
| BookModel.TotalPermutation | models/book.js:22 | the sum does not depend on the order of the ratings |
| BookModel.AveragePermutation | models/book.js:22-23 | the average does not depend on the order of the ratings |
| BookModel.TotalBounds | models/book.js:22 | with all grades in [lo, hi], the sum lies between n·lo and n·hi |
| BookModel.AverageBounds | models/book.js:22-23 | with all grades in [lo, hi] and at least one rating, the average lies in [lo, hi] |
| BookModel.AverageWithinScale | models/book.js:22-23 | grades in [0, 5] give an average in [0, 5] |
| BookModel.AverageAppend | models/book.js:21-23 | one more graded rating moves the mean m of n ratings to (m·n + g)/(n + 1) |
| BookModel.BookDocument.PushRating | controllers/book.js:145 | the rating is appended at the end and no other field changes |
| BookModel.BookDocument.CalculateAverageRating | models/book.js:20-24 | `averageRating` becomes the average of the ratings and no other field changes |
| BookUrls.IndexFromFinds | controllers/book.js:76 | the search result is an occurrence of the separator at or after k with none before it, or none exists at or after k |
| BookUrls.Split | controllers/book.js:76 | splitting yields at least one piece |
| BookUrls.SplitJoin | controllers/book.js:76 | joining the pieces with the separator gives the string back |
| BookUrls.SplitPiecesFree | controllers/book.js:76 | no piece contains the separator |
| BookUrls.SplitCuts | controllers/book.js:76 | the first piece is the text up to the first occurrence of the separator, the remaining pieces are cut the same way from just after it, and the last piece runs to the end with no occurrence from its start |
| BookUrls.FirstOccurrence | controllers/book.js:76 | an occurrence with none before it is the one found |
| BookUrls.SplitOnce | controllers/book.js:76 | a string with a single occurrence splits into the text before and after it |
| BookUrls.ImageFilenameRoundTrip | controllers/book.js:30 | the filename is recovered from the link when "/images/" occurs neither before the inserted segment nor in the filename |
| BookUrls.ImageFilenameForPlainHost | controllers/book.js:99 | the filename is recovered for a protocol and host without '/', a host other than "images", and a filename without "/images/" |
| BookUrls.ImagesHostBreaksExtraction | controllers/book.js:76 | a host named "images" makes the extraction return "images/" followed by the filename |
| BookController.InitialRatingsCases | controllers/book.js:21-23 | the ratings are dropped exactly when the first grade is 0, and otherwise kept unchanged |
| BookController.CreatedBookIgnoresClientIds | controllers/book.js:18-31 | client `_id`, `_userId`, `userId` and `imageUrl` make no difference; the owner is the caller and the link is the built one |
| BookController.CreatedBookValid | controllers/book.js:27-33 | the created record passes `save` exactly when the caller id is non-empty and the payload has a year and non-empty title, author and genre |
| BookController.UpdatedProperties | controllers/book.js:80-83 | an update keeps the required fields present, is the identity for an empty payload, ignores `_id` and `_userId`, and is idempotent |
| BookController.UpdateSkipsValidation | controllers/book.js:80-83 | an update can turn a valid book into one `save` rejects (an empty title) |
| BookController.CreatedImagePath | controllers/book.js:99-100 | for an ordinary host, the path unlinked for a created book is where its upload was stored |
| BookController.RatingKeepsScale | controllers/book.js:129-145 | a rating that passes the checks keeps all grades in [0, 5], so the average stays in [0, 5] |
| BookController.BookStore.Unlink | controllers/book.js:100 | the file is removed exactly when `fs` is bound and the file exists |
| BookController.BookStore.AbandonUpload | controllers/book.js:35-39 | the catch block answers 500 after removing the upload, and the handler's promise rejects when there is no file or the unlink raises |
| BookController.BookStore.CreateBook | controllers/book.js:10-40 | 400 exactly for a parsed payload without a file, and then nothing changes; 201 exactly when there is a file, a first rating and a valid record, and then only the new book is added under a fresh id; any other failure goes through the catch block |
| BookController.BookStore.GetOneBook | controllers/book.js:42-54 | 200 with the stored book, or 404 when the id is unknown |
| BookController.BookStore.ModifyBook | controllers/book.js:56-89 | unparsable payload or unknown id gives 500, non-owner gives 403; 200 exactly for the owner whose old image could be unlinked, and then the book is merged with the payload; every failure leaves store and files unchanged |
| BookController.BookStore.DeleteBook | controllers/book.js:91-107 | unknown id gives 500, non-owner 403; 200 exactly for the owner when the image unlink succeeds, and then the book and its image are gone; every failure leaves store and files unchanged |
| BookController.BookStore.AddBookRating | controllers/book.js:118-153 | in this order: an existing rating by the user gives 400, a grade that is not a number in [0, 5] gives 500, an unknown book gives 404; a book that fails `save`'s validation gives 500; otherwise one rating is appended, the average and other fields are unchanged, and the saved book is returned |
| BookController.OwnerDeleteAsWritten | controllers/book.js:99-102 | as written, an owner deleting their own freshly created book gets 500 and the book stays |
| BookController.OwnerDeleteWithFs | controllers/book.js:99-102 | with `fs` bound and no resize step, the same delete gives 200 and removes both the book and its upload |
| BookController.OwnerDeleteAfterResize | middleware/multer-config.js:41-42 | with `fs` bound after a resize, the link names the removed upload: the delete gives 500, the book stays and the resized copy is kept |
| BookController.OwnerDeleteResizedLink | middleware/multer-config.js:41-42 | with the resized name in the link, the delete gives 200 and removes the book and the resized copy |

## Left out

- Route registration (routes/books.js) and authentication: the caller's id is a parameter. As wired, `modifyBook` receives no file and the `multer` module object is passed where a middleware is expected; neither is modelled.
- `getAllBooks` and `getTopRatedBooks`: these are plain database queries (`find`, `sort`, `limit`) with no logic of their own.
- The database: `findOne`, `save`, `updateOne` and `deleteOne` act on a map. `save` validation is `ValidBook`: required fields present and required Strings non-empty. Type casting by the schema (a year that is not a number) is not modelled. `_id` generation is abstracted: ids are a counter. Route ids are assumed to be well-formed ObjectIds. A malformed `req.params.id` makes `findOne` reject with a CastError (controllers/book.js:44, 69, 93, 120), and every handler then answers 500 from its catch block. `getOneBook` answers 500, not 404, and `addBookRating` answers 500 at its first query, before the 400 and grade checks. This path is not modelled.
- `updateOne` is modelled as a `$set` of the payload's present fields. Nested operators and explicit `null` values are not modelled.
- `JSON.parse`: the handlers take the parsed object, or None when parsing raises. Payload values of the wrong JSON type are not modelled, except that a grade that is not a number is None.
- The `ratings.userId` query matches a rating whose `userId` equals the body's `userId`. An absent `req.body.userId` (which matches ratings without a user) is not modelled.
- File I/O: the multer disk storage and the sharp resize are not modelled beyond their effect on the set of paths in the images directory. `AfterResize` is the successful resize only; a failed resize keeps the upload and is not modelled. `path.join` normalisation is not modelled, so `ResizedPath` is plain concatenation.
- `Date.now()` is a parameter.
- Upload.Decimal: models the numeral of any natural number. JavaScript switches to exponent notation at 10^21, far beyond any timestamp.
- Upload.Extension: a MIME string naming a property inherited by every JavaScript object (such as "constructor") is treated as an unknown type.
- RatingKeepsScale: the [0, 5] bound is not a store invariant. `createBook` and `modifyBook` store client grades unchecked (controllers/book.js:21-31, 80-83). The lemma only says that `addBookRating` keeps a bound that already holds.
- BookModel.BookDocument.CalculateAverageRating: stores None for `0/0` and for a sum that is NaN. The schema's Number cast, which rejects NaN when it is assigned so that the next `save` fails, is not modelled. No handler calls the method.
- Numbers are mathematical reals and integers, not IEEE doubles. A sum is therefore exact and never rounds.
- `Rejected` stops at the handler's rejected promise. What happens next depends on the Express and Node versions, which the source files do not fix. Express 4 ignores the promise, so the request gets no response, and Node 15 or later ends the process on the unhandled rejection. Express 5 passes the error to its default handler, which answers 500. Neither framework is modelled.
- Responses are reduced to their status code, or to `Rejected`. Logging, message texts and the JSON bodies are left out, except for the book returned by `getOneBook` and `addBookRating`.
- async/await is treated as plain sequencing; concurrent requests are not modelled.

## Findings

| source | as written | input that shows it | evidently intended | confidence | as-written member | corrected member |
|---|---|---|---|---|---|---|
| controllers/book.js:100 | `fs` is never required in the module, so `fs.unlinkSync` raises a ReferenceError before `Book.deleteOne` runs | the owner deletes a book they just created: the answer is 500 and the book stays | without the resize step, the book and its image are removed and the answer is 200 | high; not executed | BookController.OwnerDeleteAsWritten | BookController.OwnerDeleteWithFs |
| middleware/multer-config.js:41-42 | `resizeImage` unlinks the upload and updates `req.file.path` but not `req.file.filename`, so the link built at controllers/book.js:30 names the removed file | with `fs` bound, upload "a.png", resize it, then the owner deletes the book: the unlink raises ENOENT, the answer is 500 and the book stays | the link names the resized copy, and the delete answers 200 and removes it | medium (as wired in routes/books.js:8 the middleware does not run); not executed | BookController.OwnerDeleteAfterResize | BookController.OwnerDeleteResizedLink |
| middleware/multer-config.js:20 | the sanitised name is followed directly by the timestamp digits, so a name ending in digits can collide with another | "x1" at 23 and "x" at 123 are both stored as "x123.png"; the collision needs the timestamp to change its number of digits, and every `Date.now()` from 2001 to 2286 has 13 (`Upload.SameWidthNoCollision`) | uploads at different instants get different names; two uploads of the same name and type in the same millisecond still collide under both schemes | low (a live clock keeps 13 digits); not executed | Upload.StoredFilenamesCanCollide | Upload.TimestampFirstDistinctInTime |
