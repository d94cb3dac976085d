/**
 * The book handlers of controllers/book.js over an abstract store.
 *
 * The database is a map from book id to Book, the images directory a set
 * of paths. Each handler becomes a method of BookStore that returns what
 * the handler does with the response: a status code, or a rejected
 * handler promise when an exception escapes the handler's own catch block.
 *
 * The controller module calls `fs.unlinkSync` without ever binding `fs`.
 * The store's `fsInScope` flag says whether that name is bound: false is
 * the code as written (every call raises a ReferenceError); true is the
 * evidently intended code with `fs` required, where unlinking a missing
 * file raises ENOENT.
 */
module BookController {
  import opened Wrappers
  import opened BookModel
  import opened BookUrls
  import Upload

  /** A book's `_id`; the database hands out fresh ones. */
  type BookId = nat

  /** What a handler does with the response. */
  datatype Outcome =
    | Sent(status: nat)   // `res.status(status)...`
    | Rejected            // an exception escaped the catch block: the handler's promise rejects without a response

  /**
   * A parsed request payload (`JSON.parse(req.body.book)` or `req.body`):
   * the fields the handlers read or copy into a Book. `rawId` is `_id`,
   * `rawUserId` is `_userId`; None stands for an absent key.
   */
  datatype BookObject = BookObject(
    rawId: Option<string>,
    rawUserId: Option<string>,
    userId: Option<string>,
    title: Option<string>,
    author: Option<string>,
    imageUrl: Option<string>,
    year: Option<int>,
    genre: Option<string>,
    ratings: Option<seq<Rating>>,
    averageRating: Option<real>)

  // ---------------------------------------------------------------------
  // createBook: the record built from the payload
  // ---------------------------------------------------------------------

  /** Lines 21-23: a first grade of exactly 0 means "not rated yet" and clears the ratings. */
  function InitialRatings(submitted: seq<Rating>): seq<Rating>
    requires |submitted| > 0
  {
    if submitted[0].grade == Some(0.0) then [] else submitted
  }

  /** The submitted ratings are either kept exactly or all dropped, and only a first grade of 0 drops them. */
  lemma InitialRatingsCases(submitted: seq<Rating>)
    requires |submitted| > 0
    ensures InitialRatings(submitted) == [] <==> submitted[0].grade == Some(0.0)
    ensures InitialRatings(submitted) != [] ==> InitialRatings(submitted) == submitted
  {
  }

  /**
   * Lines 27-31: `new Book({...bookObject, userId: req.auth.userId, imageUrl})`
   * after `_id` and `_userId` were deleted and the ratings normalised.
   */
  function CreatedBook(payload: BookObject, caller: string, url: string): Book
    requires payload.ratings.Some? && |payload.ratings.value| > 0
  {
    Book(Some(caller), payload.title, payload.author, Some(url), payload.year, payload.genre,
         InitialRatings(payload.ratings.value), payload.averageRating)
  }

  /**
   * The stored owner is always the authenticated caller and the image link
   * the one built from the upload: whatever the client sent as `_id`,
   * `_userId`, `userId` or `imageUrl` makes no difference.
   */
  lemma CreatedBookIgnoresClientIds(payload: BookObject, caller: string, url: string,
                                    id: Option<string>, alias: Option<string>,
                                    owner: Option<string>, link: Option<string>)
    requires payload.ratings.Some? && |payload.ratings.value| > 0
    ensures var forged := payload.(rawId := id, rawUserId := alias, userId := owner, imageUrl := link);
      CreatedBook(forged, caller, url) == CreatedBook(payload, caller, url)
    ensures CreatedBook(payload, caller, url).userId == Some(caller)
    ensures CreatedBook(payload, caller, url).imageUrl == Some(url)
  {
  }

  /**
   * The created record passes `save`'s validation exactly when the caller's
   * id is not empty and the payload has a year and non-empty title, author
   * and genre (the built link is never empty).
   */
  lemma CreatedBookValid(payload: BookObject, caller: string, protocol: string, host: string, filename: string)
    requires payload.ratings.Some? && |payload.ratings.value| > 0
    ensures ValidBook(CreatedBook(payload, caller, ImageUrl(protocol, host, filename))) <==>
      && caller != ""
      && payload.title.Some? && payload.title.value != ""
      && payload.author.Some? && payload.author.value != ""
      && payload.year.Some?
      && payload.genre.Some? && payload.genre.value != ""
  {
  }

  // ---------------------------------------------------------------------
  // modifyBook: the payload and the update
  // ---------------------------------------------------------------------

  /** Lines 58-67: the payload of an update, with `_userId` deleted. */
  function ModifyPayload(body: BookObject, bookField: Option<BookObject>, file: Option<string>,
                         protocol: string, host: string): BookObject
    requires file.Some? ==> bookField.Some?
  {
    var payload :=
      if file.Some? then bookField.value.(imageUrl := Some(ImageUrl(protocol, host, file.value)))
      else body;
    payload.(rawUserId := None)
  }

  function Or<T>(given: Option<T>, current: Option<T>): Option<T> {
    if given.Some? then given else current
  }

  /**
   * Lines 80-83: `Book.updateOne({_id}, {...bookObject, _id})`. An update
   * without operators sets the fields the payload has and leaves the others;
   * the key stays the route id.
   */
  function Updated(b: Book, payload: BookObject): Book {
    Book(Or(payload.userId, b.userId), Or(payload.title, b.title), Or(payload.author, b.author),
         Or(payload.imageUrl, b.imageUrl), Or(payload.year, b.year), Or(payload.genre, b.genre),
         payload.ratings.GetOr(b.ratings), Or(payload.averageRating, b.averageRating))
  }

  const EmptyPayload := BookObject(None, None, None, None, None, None, None, None, None, None)

  /**
   * An update keeps every required field present, changes nothing when the payload is
   * empty, does not depend on `_id` or `_userId`, and applying it twice is
   * applying it once.
   */
  lemma UpdatedProperties(b: Book, payload: BookObject, id: Option<string>, alias: Option<string>)
    ensures HasRequiredFields(b) ==> HasRequiredFields(Updated(b, payload))
    ensures Updated(b, EmptyPayload) == b
    ensures Updated(b, payload.(rawId := id, rawUserId := alias)) == Updated(b, payload)
    ensures Updated(Updated(b, payload), payload) == Updated(b, payload)
  {
  }

  /**
   * `updateOne` runs no validators: an update can store a book that `save`
   * would reject, such as one whose title is the empty string.
   */
  lemma UpdateSkipsValidation(b: Book)
    requires ValidBook(b)
    ensures HasRequiredFields(Updated(b, EmptyPayload.(title := Some(""))))
    ensures !ValidBook(Updated(b, EmptyPayload.(title := Some(""))))
  {
  }

  // ---------------------------------------------------------------------
  // The image file of a stored book
  // ---------------------------------------------------------------------

  /** Lines 76-77 and 99-100: the path handed to `fs.unlinkSync`. */
  function StoredImagePath(b: Book): string
    requires b.imageUrl.Some?
  {
    Upload.UploadPath(ImageFilename(b.imageUrl.value))
  }

  /**
   * For an ordinary host, the path the handlers unlink for a created book is
   * the path where the upload was stored.
   */
  lemma CreatedImagePath(payload: BookObject, caller: string, protocol: string, host: string, filename: string)
    requires payload.ratings.Some? && |payload.ratings.value| > 0
    requires '/' !in protocol && '/' !in host && host != "images"
    requires NoOccurrence(filename, ImagesSegment)
    ensures StoredImagePath(CreatedBook(payload, caller, ImageUrl(protocol, host, filename))) == Upload.UploadPath(filename)
  {
    ImageFilenameForPlainHost(protocol, host, filename);
  }

  // ---------------------------------------------------------------------
  // addBookRating: the checks
  // ---------------------------------------------------------------------

  /** The query `{_id, "ratings.userId": userId}` matches the book. */
  predicate RatedBy(b: Book, user: string) {
    exists i :: 0 <= i < |b.ratings| && b.ratings[i].userId == Some(user)
  }

  /** Lines 129-133: a number between 0 and 5 inclusive; None is any value that is not a number. */
  predicate ValidGrade(rating: Option<real>) {
    rating.Some? && 0.0 <= rating.value <= 5.0
  }

  /**
   * A rating that passes the checks keeps every grade of the book in [0, 5],
   * so an average computed afterwards lies in [0, 5] too.
   */
  lemma RatingKeepsScale(b: Book, user: string, rating: Option<real>)
    requires GradesWithin(b.ratings, 0.0, 5.0) && ValidGrade(rating)
    ensures var rs := b.ratings + [Rating(Some(user), rating)];
      && GradesWithin(rs, 0.0, 5.0)
      && AverageRating(rs).Some? && 0.0 <= AverageRating(rs).value <= 5.0
  {
    var rs := b.ratings + [Rating(Some(user), rating)];
    assert GradesWithin(rs, 0.0, 5.0) by {
      forall i | 0 <= i < |rs| ensures rs[i].grade.Some? && 0.0 <= rs[i].grade.value <= 5.0 {
        if i < |b.ratings| {
          assert rs[i] == b.ratings[i];
        }
      }
    }
    AverageWithinScale(rs);
  }

  // ---------------------------------------------------------------------
  // The store and the handlers
  // ---------------------------------------------------------------------

  class BookStore {
    /** Whether `fs` is bound in the controller module (it is not, as written). */
    const fsInScope: bool
    /** The Book collection. */
    var books: map<BookId, Book>
    /** The next fresh `_id`. */
    var nextId: BookId
    /** The paths present in the images directory. */
    var files: set<string>

    /**
     * Every stored book has the required fields (`save` checked them and
     * updates only set fields), and fresh ids are above all used ones.
     */
    ghost predicate Valid()
      reads this
    {
      forall id :: id in books ==> id < nextId && HasRequiredFields(books[id])
    }

    constructor (fsInScope: bool, files: set<string>)
      ensures Valid()
      ensures this.fsInScope == fsInScope && this.files == files
      ensures books == map[] && nextId == 0
    {
      this.fsInScope := fsInScope;
      this.files := files;
      books := map[];
      nextId := 0;
    }

    /** `fs.unlinkSync(path)`: raises unless `fs` is bound and the file exists. */
    method Unlink(path: string) returns (ok: bool)
      modifies this
      ensures ok == (fsInScope && path in old(files))
      ensures files == if ok then old(files) - {path} else old(files)
      ensures books == old(books) && nextId == old(nextId)
    {
      ok := fsInScope && path in files;
      if ok {
        files := files - {path};
      }
    }

    /**
     * Lines 35-38, createBook's catch block: `req.file.filename` raises when
     * there is no file, and `fs.unlinkSync` raises when it fails; either
     * exception escapes and the handler's promise rejects. Otherwise the
     * upload is removed and the answer is 500.
     */
    method AbandonUpload(file: Option<string>) returns (out: Outcome)
      modifies this
      ensures out == if file.Some? && fsInScope && Upload.UploadPath(file.value) in old(files)
                     then Sent(500) else Rejected
      ensures files == if out == Sent(500) then old(files) - {Upload.UploadPath(file.value)} else old(files)
      ensures books == old(books) && nextId == old(nextId)
    {
      if file.None? {
        return Rejected;
      }
      var ok := Unlink(Upload.UploadPath(file.value));
      out := if ok then Sent(500) else Rejected;
    }

    /** Lines 10-40, `createBook`. `bookField` is `JSON.parse(req.body.book)`, None when it raises. */
    method CreateBook(bookField: Option<BookObject>, file: Option<string>, caller: string,
                      protocol: string, host: string) returns (out: Outcome)
      requires Valid()
      modifies this
      ensures Valid()
      ensures out == Sent(400) <==> bookField.Some? && file.None?
      ensures out == Sent(201) <==>
        && bookField.Some? && file.Some?
        && bookField.value.ratings.Some? && |bookField.value.ratings.value| > 0
        && ValidBook(CreatedBook(bookField.value, caller, ImageUrl(protocol, host, file.value)))
      ensures out == Sent(201) ==>
        && books == old(books)[old(nextId) := CreatedBook(bookField.value, caller, ImageUrl(protocol, host, file.value))]
        && nextId == old(nextId) + 1
        && files == old(files)
      ensures out != Sent(201) ==> books == old(books) && nextId == old(nextId)
      ensures out == Sent(400) ==> files == old(files)
      ensures out != Sent(201) && out != Sent(400) ==>
        && out == (if file.Some? && fsInScope && Upload.UploadPath(file.value) in old(files) then Sent(500) else Rejected)
        && files == (if out == Sent(500) then old(files) - {Upload.UploadPath(file.value)} else old(files))
    {
      if bookField.None? {
        out := AbandonUpload(file);
        return;
      }
      var bookObject := bookField.value;
      if file.None? {
        return Sent(400);
      }
      bookObject := bookObject.(rawId := None);
      bookObject := bookObject.(rawUserId := None);
      if bookObject.ratings.None? || |bookObject.ratings.value| == 0 {
        // reading `ratings[0].grade` raises a TypeError
        out := AbandonUpload(file);
        return;
      }
      if bookObject.ratings.value[0].grade == Some(0.0) {
        bookObject := bookObject.(ratings := Some([]));
      }
      var filename := file.value;
      var book := Book(Some(caller), bookObject.title, bookObject.author,
                       Some(ImageUrl(protocol, host, filename)), bookObject.year, bookObject.genre,
                       bookObject.ratings.value, bookObject.averageRating);
      if !ValidBook(book) {
        // `save` rejects the document
        out := AbandonUpload(file);
        return;
      }
      books := books[nextId := book];
      nextId := nextId + 1;
      out := Sent(201);
    }

    /** Lines 42-54, `getOneBook`. */
    method GetOneBook(id: BookId) returns (out: Outcome, body: Option<Book>)
      ensures id in books ==> out == Sent(200) && body == Some(books[id])
      ensures id !in books ==> out == Sent(404) && body == None
    {
      if id in books {
        out, body := Sent(200), Some(books[id]);
      } else {
        out, body := Sent(404), None;
      }
    }

    /**
     * Lines 56-89, `modifyBook`. `bookField` is `JSON.parse(req.body.book)`
     * (read only when a file was uploaded), `body` is `req.body`.
     */
    method ModifyBook(id: BookId, body: BookObject, bookField: Option<BookObject>, file: Option<string>,
                      caller: string, protocol: string, host: string) returns (out: Outcome)
      requires Valid()
      modifies this
      ensures Valid() && nextId == old(nextId)
      ensures out == Sent(200) || out == Sent(403) || out == Sent(500)
      ensures file.Some? && bookField.None? ==> out == Sent(500)
      ensures (file.None? || bookField.Some?) && id !in old(books) ==> out == Sent(500)
      ensures out == Sent(403) <==>
        (file.None? || bookField.Some?) && id in old(books) && old(books)[id].userId != Some(caller)
      ensures out == Sent(200) <==>
        && (file.None? || bookField.Some?)
        && id in old(books) && old(books)[id].userId == Some(caller)
        && (file.Some? ==> fsInScope && StoredImagePath(old(books)[id]) in old(files))
      ensures out == Sent(200) ==>
        && books == old(books)[id := Updated(old(books)[id], ModifyPayload(body, bookField, file, protocol, host))]
        && files == (if file.Some? then old(files) - {StoredImagePath(old(books)[id])} else old(files))
      ensures out != Sent(200) ==> books == old(books) && files == old(files)
    {
      var bookObject: BookObject;
      if file.Some? {
        if bookField.None? {
          return Sent(500);
        }
        bookObject := bookField.value.(imageUrl := Some(ImageUrl(protocol, host, file.value)));
      } else {
        bookObject := body;
      }
      bookObject := bookObject.(rawUserId := None);
      if id !in books {
        // `book.userId` of a null book raises a TypeError
        return Sent(500);
      }
      var book := books[id];
      if book.userId != Some(caller) {
        return Sent(403);
      }
      if file.Some? {
        var ok := Unlink(Upload.UploadPath(ImageFilename(book.imageUrl.value)));
        if !ok {
          return Sent(500);
        }
      }
      books := books[id := Updated(book, bookObject)];
      out := Sent(200);
    }

    /** Lines 91-107, `deleteBook`. */
    method DeleteBook(id: BookId, caller: string) returns (out: Outcome)
      requires Valid()
      modifies this
      ensures Valid() && nextId == old(nextId)
      ensures out == Sent(200) || out == Sent(403) || out == Sent(500)
      ensures id !in old(books) ==> out == Sent(500)
      ensures out == Sent(403) <==> id in old(books) && old(books)[id].userId != Some(caller)
      ensures out == Sent(200) <==>
        && id in old(books) && old(books)[id].userId == Some(caller)
        && fsInScope && StoredImagePath(old(books)[id]) in old(files)
      ensures out == Sent(200) ==>
        books == old(books) - {id} && files == old(files) - {StoredImagePath(old(books)[id])}
      ensures out != Sent(200) ==> books == old(books) && files == old(files)
    {
      if id !in books {
        // `book.userId` of a null book raises a TypeError
        return Sent(500);
      }
      var book := books[id];
      if book.userId != Some(caller) {
        return Sent(403);
      }
      var ok := Unlink(Upload.UploadPath(ImageFilename(book.imageUrl.value)));
      if !ok {
        return Sent(500);
      }
      books := books - {id};
      out := Sent(200);
    }

    /**
     * Lines 118-153, `addBookRating`, for `req.body.userId == user` and
     * `req.body.rating == rating`. The average is not recomputed. `save`
     * validates the whole document, so a book that an update left with an
     * empty required string cannot be rated (500).
     */
    method AddBookRating(id: BookId, user: string, rating: Option<real>) returns (out: Outcome, body: Option<Book>)
      requires Valid()
      modifies this
      ensures Valid() && nextId == old(nextId) && files == old(files)
      ensures out == Sent(400) <==> id in old(books) && RatedBy(old(books)[id], user)
      ensures !(id in old(books) && RatedBy(old(books)[id], user)) && !ValidGrade(rating) ==> out == Sent(500)
      ensures out == Sent(404) <==> ValidGrade(rating) && id !in old(books)
      ensures id in old(books) && !RatedBy(old(books)[id], user) && ValidGrade(rating) && !ValidBook(old(books)[id]) ==>
        out == Sent(500)
      ensures out == Sent(200) <==>
        id in old(books) && !RatedBy(old(books)[id], user) && ValidGrade(rating) && ValidBook(old(books)[id])
      ensures out == Sent(200) ==>
        && books == old(books)[id := old(books)[id].(ratings := old(books)[id].ratings + [Rating(Some(user), rating)])]
        && books[id].averageRating == old(books)[id].averageRating
        && body == Some(books[id])
      ensures out != Sent(200) ==> books == old(books) && body == None
    {
      if id in books && RatedBy(books[id], user) {
        return Sent(400), None;
      }
      if !ValidGrade(rating) {
        return Sent(500), None;
      }
      if id !in books {
        return Sent(404), None;
      }
      var doc := new BookDocument(books[id]);
      doc.PushRating(Rating(Some(user), rating));
      var saved := doc.Record();
      if !ValidBook(saved) {
        return Sent(500), None;
      }
      books := books[id := saved];
      out, body := Sent(200), Some(saved);
    }
  }

  // ---------------------------------------------------------------------
  // An owner deleting their own book
  // ---------------------------------------------------------------------

  function SampleBook(): BookObject {
    BookObject(None, None, None, Some("Dune"), Some("Frank Herbert"), None, Some(1965), Some("SF"),
               Some([Rating(Some("reader"), Some(4.0))]), None)
  }

  /** As written (`fs` unbound), the owner's delete answers 500 and the book stays. */
  method OwnerDeleteAsWritten() returns (created: Outcome, deleted: Outcome, stillStored: bool)
    ensures created == Sent(201) && deleted == Sent(500) && stillStored
  {
    var store := new BookStore(false, {Upload.UploadPath("a.png")});
    created := store.CreateBook(Some(SampleBook()), Some("a.png"), "owner", "http", "localhost");
    deleted := store.DeleteBook(0, "owner");
    stillStored := 0 in store.books;
  }

  /**
   * With `fs` bound and the upload still where the disk storage wrote it
   * (no resize step), the owner's delete answers 200, the book is gone and
   * so is its upload.
   */
  method OwnerDeleteWithFs() returns (created: Outcome, deleted: Outcome, stillStored: bool, fileKept: bool)
    ensures created == Sent(201) && deleted == Sent(200) && !stillStored && !fileKept
  {
    var path := Upload.UploadPath("a.png");
    var store := new BookStore(true, {path});
    created := store.CreateBook(Some(SampleBook()), Some("a.png"), "owner", "http", "localhost");
    CreatedImagePath(SampleBook(), "owner", "http", "localhost", "a.png");
    deleted := store.DeleteBook(0, "owner");
    stillStored := 0 in store.books;
    fileKept := path in store.files;
  }

  /**
   * With `fs` bound, after the resize step: the link still names the
   * original upload, which the resize step removed, so the owner's delete
   * answers 500, the book stays, and the resized copy is never removed.
   */
  method OwnerDeleteAfterResize() returns (created: Outcome, deleted: Outcome, stillStored: bool, resizedKept: bool)
    ensures created == Sent(201) && deleted == Sent(500) && stillStored && resizedKept
  {
    var store := new BookStore(true, Upload.AfterResize({Upload.UploadPath("a.png")}, "a.png"));
    created := store.CreateBook(Some(SampleBook()), Some("a.png"), "owner", "http", "localhost");
    CreatedImagePath(SampleBook(), "owner", "http", "localhost", "a.png");
    deleted := store.DeleteBook(0, "owner");
    stillStored := 0 in store.books;
    resizedKept := Upload.ResizedPath("a.png") in store.files;
  }

  /**
   * With `fs` bound and the resized copy's name in the link (the upload's
   * name updated along with its path), the owner's delete answers 200 and
   * removes the book and the resized copy.
   */
  method OwnerDeleteResizedLink() returns (created: Outcome, deleted: Outcome, stillStored: bool, resizedKept: bool)
    ensures created == Sent(201) && deleted == Sent(200) && !stillStored && !resizedKept
  {
    var resized := Upload.ResizedPrefix + "a.png";
    Upload.ResizedPathDistinct("a.png");
    var store := new BookStore(true, Upload.AfterResize({Upload.UploadPath("a.png")}, "a.png"));
    created := store.CreateBook(Some(SampleBook()), Some(resized), "owner", "http", "localhost");
    NoSlashNoSegment(resized);
    CreatedImagePath(SampleBook(), "owner", "http", "localhost", resized);
    deleted := store.DeleteBook(0, "owner");
    stillStored := 0 in store.books;
    resizedKept := Upload.ResizedPath("a.png") in store.files;
  }
}
