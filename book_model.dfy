/**
 * The Book document of models/book.js: the schema's fields, which of them
 * are required, and the `calculateAverageRating` document method.
 *
 * JavaScript numbers are modelled as mathematical numbers: grades and
 * averages are reals, the publication year an integer. A `NaN` result
 * (a missing grade, or the quotient 0/0) is modelled as None.
 */
module BookModel {
  import opened Wrappers

  /** One entry of `ratings`; the schema requires neither of its fields. */
  datatype Rating = Rating(userId: Option<string>, grade: Option<real>)

  /**
   * A Book document without its `_id` (the store keys books by id). An
   * absent optional field is None; `ratings` is an array, empty by default.
   */
  datatype Book = Book(
    userId: Option<string>,
    title: Option<string>,
    author: Option<string>,
    imageUrl: Option<string>,
    year: Option<int>,
    genre: Option<string>,
    ratings: seq<Rating>,
    averageRating: Option<real>)

  /** The schema's `required: true` fields are all present. */
  predicate HasRequiredFields(b: Book) {
    && b.userId.Some?
    && b.title.Some?
    && b.author.Some?
    && b.imageUrl.Some?
    && b.year.Some?
    && b.genre.Some?
  }

  /**
   * What `save` accepts: every required field is present, and a required
   * String field is not the empty string.
   */
  predicate ValidBook(b: Book) {
    && HasRequiredFields(b)
    && b.userId.value != ""
    && b.title.value != ""
    && b.author.value != ""
    && b.imageUrl.value != ""
    && b.genre.value != ""
  }

  /** Ratings and the average are optional: they never decide whether a book is valid. */
  lemma ValidityIgnoresRatings(b: Book, ratings: seq<Rating>, average: Option<real>)
    ensures ValidBook(b.(ratings := ratings, averageRating := average)) == ValidBook(b)
    ensures HasRequiredFields(b.(ratings := ratings, averageRating := average)) == HasRequiredFields(b)
  {
  }

  // ---------------------------------------------------------------------
  // The average rating
  // ---------------------------------------------------------------------

  predicate AllGraded(rs: seq<Rating>) {
    forall i :: 0 <= i < |rs| ==> rs[i].grade.Some?
  }

  /** Every rating has a grade between `lo` and `hi`. */
  predicate GradesWithin(rs: seq<Rating>, lo: real, hi: real) {
    forall i :: 0 <= i < |rs| ==> rs[i].grade.Some? && lo <= rs[i].grade.value <= hi
  }

  /** `acc + curr.grade`: adding a missing grade (undefined) gives NaN. */
  function AddGrade(acc: Option<real>, grade: Option<real>): Option<real> {
    if acc.Some? && grade.Some? then Some(acc.value + grade.value) else None
  }

  /** `ratings.reduce((acc, curr) => acc + curr.grade, 0)`, folding from the left. */
  function TotalGrade(rs: seq<Rating>): (t: Option<real>)
    ensures t.Some? <==> AllGraded(rs)
  {
    if rs == [] then Some(0.0)
    else AddGrade(TotalGrade(rs[..|rs| - 1]), rs[|rs| - 1].grade)
  }

  /** `totalGrade / totalRatings`: NaN when the total is NaN or both are 0. */
  function Quotient(total: Option<real>, count: nat): Option<real> {
    if count == 0 || total.None? then None else Some(total.value / count as real)
  }

  /** The value `calculateAverageRating` stores. */
  function AverageRating(rs: seq<Rating>): (a: Option<real>)
    ensures a.Some? <==> |rs| > 0 && AllGraded(rs)
  {
    Quotient(TotalGrade(rs), |rs|)
  }

  /** The total with one rating taken out, added back last. */
  lemma {:induction false} TotalRemove(rs: seq<Rating>, k: nat)
    requires k < |rs|
    ensures TotalGrade(rs) == AddGrade(TotalGrade(rs[..k] + rs[k + 1..]), rs[k].grade)
    decreases |rs|
  {
    var n := |rs| - 1;
    var q := rs[..k] + rs[k + 1..];
    if k == n {
      assert q == rs[..n];
    } else {
      var p := rs[..n];
      var inner := p[..k] + p[k + 1..];
      assert TotalGrade(p) == AddGrade(TotalGrade(inner), rs[k].grade) by {
        TotalRemove(p, k);
        assert p[k] == rs[k];
      }
      assert TotalGrade(q) == AddGrade(TotalGrade(inner), rs[n].grade) by {
        assert inner == q[..|q| - 1];
        assert q[|q| - 1] == rs[n];
      }
      AddGradeSwap(TotalGrade(inner), rs[k].grade, rs[n].grade);
    }
  }

  /** Two grades can be added in either order. */
  lemma AddGradeSwap(t: Option<real>, a: Option<real>, b: Option<real>)
    ensures AddGrade(AddGrade(t, a), b) == AddGrade(AddGrade(t, b), a)
  {
  }

  /** The total does not depend on the order of the ratings. */
  lemma {:induction false} TotalPermutation(rs: seq<Rating>, qs: seq<Rating>)
    requires multiset(rs) == multiset(qs)
    ensures TotalGrade(rs) == TotalGrade(qs)
    decreases |rs|
  {
    if rs != [] {
      var n := |rs| - 1;
      var x := rs[n];
      assert rs == rs[..n] + [x];
      assert x in multiset(qs);
      var k :| 0 <= k < |qs| && qs[k] == x;
      var rest := qs[..k] + qs[k + 1..];
      assert qs == qs[..k] + [x] + qs[k + 1..];
      assert multiset(qs) == multiset(qs[..k]) + multiset([x]) + multiset(qs[k + 1..]);
      assert multiset(rest) == multiset(qs[..k]) + multiset(qs[k + 1..]);
      assert multiset(rs) == multiset(rs[..n]) + multiset([x]);
      assert multiset(rs[..n]) == multiset(rs) - multiset([x]);
      assert multiset(rest) == multiset(qs) - multiset([x]);
      TotalPermutation(rs[..n], rest);
      TotalRemove(qs, k);
    }
  }

  /** The average does not depend on the order of the ratings. */
  lemma AveragePermutation(rs: seq<Rating>, qs: seq<Rating>)
    requires multiset(rs) == multiset(qs)
    ensures AverageRating(rs) == AverageRating(qs)
  {
    TotalPermutation(rs, qs);
    assert |rs| == |multiset(rs)| == |multiset(qs)| == |qs|;
  }

  /** With every grade in [lo, hi], the total lies between n·lo and n·hi. */
  lemma {:induction false} TotalBounds(rs: seq<Rating>, lo: real, hi: real)
    requires GradesWithin(rs, lo, hi)
    ensures TotalGrade(rs).Some?
    ensures lo * (|rs| as real) <= TotalGrade(rs).value <= hi * (|rs| as real)
  {
    if rs != [] {
      var n := |rs| - 1;
      assert GradesWithin(rs[..n], lo, hi) by {
        forall i | 0 <= i < n ensures rs[..n][i] == rs[i] {
        }
      }
      TotalBounds(rs[..n], lo, hi);
      assert lo * (|rs| as real) == lo * (n as real) + lo;
      assert hi * (|rs| as real) == hi * (n as real) + hi;
    }
  }

  /** With every grade in [lo, hi], a defined average lies in [lo, hi]. */
  lemma AverageBounds(rs: seq<Rating>, lo: real, hi: real)
    requires |rs| > 0 && GradesWithin(rs, lo, hi)
    ensures AverageRating(rs).Some?
    ensures lo <= AverageRating(rs).value <= hi
  {
    TotalBounds(rs, lo, hi);
    var t, n := TotalGrade(rs).value, |rs| as real;
    var m := t / n;
    assert m * n == t;
    if m < lo {
      assert m * n < lo * n;
    }
    if m > hi {
      assert m * n > hi * n;
    }
  }

  /** Grades between 0 and 5 give an average between 0 and 5. */
  lemma AverageWithinScale(rs: seq<Rating>)
    requires |rs| > 0 && GradesWithin(rs, 0.0, 5.0)
    ensures AverageRating(rs).Some? && 0.0 <= AverageRating(rs).value <= 5.0
  {
    AverageBounds(rs, 0.0, 5.0);
  }

  /** Appending one graded rating to n rated ones moves the mean from m to (m·n + g)/(n + 1). */
  lemma AverageAppend(rs: seq<Rating>, r: Rating)
    requires AverageRating(rs).Some? && r.grade.Some?
    ensures AverageRating(rs + [r]).Some?
    ensures AverageRating(rs + [r]).value ==
      (AverageRating(rs).value * (|rs| as real) + r.grade.value) / ((|rs| + 1) as real)
  {
    var all := rs + [r];
    assert all[..|all| - 1] == rs && all[|all| - 1] == r;
    var t, n := TotalGrade(rs).value, |rs| as real;
    var m := AverageRating(rs).value;
    assert m == t / n;
    assert m * n == t;
    var g := r.grade.value;
    assert TotalGrade(all) == Some(t + g);
    assert AverageRating(all) == Some((t + g) / ((|rs| + 1) as real));
  }

  // ---------------------------------------------------------------------
  // A loaded document
  // ---------------------------------------------------------------------

  /** A Book document in memory, whose fields handlers and document methods assign in place. */
  class BookDocument {
    var userId: Option<string>
    var title: Option<string>
    var author: Option<string>
    var imageUrl: Option<string>
    var year: Option<int>
    var genre: Option<string>
    var ratings: seq<Rating>
    var averageRating: Option<real>

    /** The document's current field values. */
    function Record(): Book
      reads this
    {
      Book(userId, title, author, imageUrl, year, genre, ratings, averageRating)
    }

    /** The document a query returns for a stored book. */
    constructor (b: Book)
      ensures Record() == b
    {
      userId, title, author, imageUrl := b.userId, b.title, b.author, b.imageUrl;
      year, genre, ratings, averageRating := b.year, b.genre, b.ratings, b.averageRating;
    }

    /** `book.ratings.push(rating)`. */
    method PushRating(r: Rating)
      modifies this
      ensures ratings == old(ratings) + [r]
      ensures Record() == old(Record()).(ratings := old(ratings) + [r])
    {
      ratings := ratings + [r];
    }

    /** `calculateAverageRating`: assigns the mean of the grades and nothing else. */
    method CalculateAverageRating()
      modifies this
      ensures averageRating == AverageRating(ratings)
      ensures Record() == old(Record()).(averageRating := AverageRating(old(ratings)))
    {
      var totalRatings := |ratings|;
      var totalGrade := TotalGrade(ratings);
      averageRating := Quotient(totalGrade, totalRatings);
    }
  }
}
