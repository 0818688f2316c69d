/**
 * Books and their course links (Services/Implementations/BookService.cs). A book's links
 * are the `BookCourses` join rows, held on the book as the list of linked course ids;
 * loading a book with its courses yields the linked ids whose course exists. The join table
 * keeps no position; the model lists the entries in the order the links were made.
 */
module Books {
  import opened Wrappers
  import opened Entities
  import opened Responses
  import opened Query
  import opened Store

  /** The fields `CreateBookAsync` and `UpdateBookAsync` read from their request. */
  datatype BookRequest = BookRequest(
    title: string,
    author: string,
    description: Option<string>,
    isbn: Option<string>,
    publicationYear: int,
    publisher: Option<string>,
    pages: int,
    language: Option<string>,
    courseIds: seq<int>)

  /** The course entry of a book response: only id, name and description are filled in. */
  datatype BookCourse = BookCourse(id: int, name: string, description: Option<string>)

  datatype BookResponse = BookResponse(
    id: int,
    title: string,
    author: string,
    description: Option<string>,
    isbn: Option<string>,
    publicationYear: int,
    publisher: Option<string>,
    pages: int,
    language: Option<string>,
    createdAt: Timestamp,
    updatedAt: Timestamp,
    courses: seq<BookCourse>)

  const BooksLoaded: string := "Книги успешно загружены"
  const BookNotFound: string := "Книга не найдена"
  const BookLoaded: string := "Книга успешно загружена"
  const CourseBooksLoaded: string := "Книги курса успешно загружены"
  const BookCreated: string := "Книга успешно создана"
  const BookUpdated: string := "Книга успешно обновлена"
  const BookDeleted: string := "Книга успешно удалена"
  const CourseNotFound: string := "Курс не найден"
  const AlreadyLinked: string := "Книга уже добавлена к этому курсу"
  const Linked: string := "Книга успешно добавлена к курсу"
  const NotLinked: string := "Книга не связана с этим курсом"
  const Unlinked: string := "Книга успешно удалена из курса"

  function Exists(courses: map<int, Course>): int -> bool {
    (id: int) => id in courses
  }

  /** The ids of the book's courses as `Include(b => b.Courses)` loads them. */
  function LoadedIds(b: Book, courses: map<int, Course>): (ids: seq<int>)
    ensures forall id :: id in ids <==> id in b.courseIds && id in courses
  {
    Where(b.courseIds, Exists(courses))
  }

  /** `b.Courses.Any(c => c.Id == courseId)` on the loaded book. */
  predicate LinkedTo(b: Book, courseId: int, courses: map<int, Course>) {
    courseId in b.courseIds && courseId in courses
  }

  function Entry(c: Course): BookCourse {
    BookCourse(c.id, c.name, c.description)
  }

  /** `MapToBookResponse`: every scalar field, and one entry per loaded course, in the order the links were made. */
  function MapToBookResponse(b: Book, courses: map<int, Course>): (r: BookResponse)
    ensures && r.id == b.id && r.title == b.title && r.author == b.author && r.description == b.description
            && r.isbn == b.isbn && r.publicationYear == b.publicationYear && r.publisher == b.publisher
            && r.pages == b.pages && r.language == b.language
            && r.createdAt == b.createdAt && r.updatedAt == b.updatedAt
    ensures |r.courses| == |LoadedIds(b, courses)|
    ensures forall i | 0 <= i < |r.courses| :: LoadedIds(b, courses)[i] in courses &&
              r.courses[i] == Entry(courses[LoadedIds(b, courses)[i]])
  {
    var ids := LoadedIds(b, courses);
    var entries := seq(|ids|, i requires 0 <= i < |ids| => Entry(courses[ids[i]]));
    BookResponse(b.id, b.title, b.author, b.description, b.isbn, b.publicationYear, b.publisher, b.pages,
                 b.language, b.createdAt, b.updatedAt, entries)
  }

  /** In a consistent store every course entry of a book response describes the course of its id. */
  lemma MapToBookResponseEntries(b: Book, courses: map<int, Course>, c: BookCourse)
    requires forall k | k in courses :: courses[k].id == k
    ensures c in MapToBookResponse(b, courses).courses <==>
            exists id :: id in b.courseIds && id in courses && c == Entry(courses[id])
  {
    var r := MapToBookResponse(b, courses);
    var ids := LoadedIds(b, courses);
    if c in r.courses {
      var i :| 0 <= i < |r.courses| && r.courses[i] == c;
      assert ids[i] in ids;
    }
    if exists id :: id in b.courseIds && id in courses && c == Entry(courses[id]) {
      var id :| id in b.courseIds && id in courses && c == Entry(courses[id]);
      var i :| 0 <= i < |ids| && ids[i] == id;
      assert r.courses[i] == c;
    }
  }

  /**
   * `Courses.Where(c => ids.Contains(c.Id))`: the ids of the existing courses that were
   * requested, in key order, each once. Unknown ids are dropped.
   */
  function ResolveCourses(requested: seq<int>, courses: map<int, Course>): (ids: seq<int>)
    ensures Increasing(ids) && NoDuplicates(ids)
    ensures forall id :: id in ids <==> id in requested && id in courses
  {
    var keys := SortedKeys(courses.Keys);
    var ids := Where(keys, (id: int) => id in requested);
    WhereKeepsIncreasing(keys, (id: int) => id in requested);
    IncreasingDistinct(ids);
    ids
  }

  /** `OrderBy(b => b.Title)`, SQLite's default BINARY collation: code-point order. */
  function TitleLe(a: Book, b: Book): bool {
    LexLe(a.title, b.title)
  }

  lemma {:induction false} TitleOrders()
    ensures TotalPreorder(TitleLe)
  {
    forall a: Book, b: Book ensures TitleLe(a, b) || TitleLe(b, a) {
      LexLeTotal(a.title, b.title);
    }
    forall a: Book, b: Book, c: Book | TitleLe(a, b) && TitleLe(b, c) ensures TitleLe(a, c) {
      LexLeTransitive(a.title, b.title, c.title);
    }
  }

  function Anything(): Book -> bool {
    (b: Book) => true
  }

  function LinkedToCourse(courseId: int, courses: map<int, Course>): Book -> bool {
    (b: Book) => LinkedTo(b, courseId, courses)
  }

  lemma AllKeys(books: map<int, Book>)
    ensures KeysWhere(books, Anything()) == books.Keys
  {
  }

  lemma CourseKeys(books: map<int, Book>, courseId: int, courses: map<int, Course>)
    ensures KeysWhere(books, LinkedToCourse(courseId, courses)) ==
            set k | k in books && LinkedTo(books[k], courseId, courses)
  {
  }

  /** `books.Select(MapToBookResponse)`, position by position. */
  function MapAll(rows: seq<Book>, courses: map<int, Course>): (r: seq<BookResponse>)
    ensures |r| == |rows|
    ensures forall i | 0 <= i < |rows| :: r[i] == MapToBookResponse(rows[i], courses)
    ensures forall v :: v in r <==> exists b :: b in rows && v == MapToBookResponse(b, courses)
  {
    var toResponse := (b: Book) => MapToBookResponse(b, courses);
    var r := Select(rows, toResponse);
    forall v ensures v in r <==> exists b :: b in rows && v == MapToBookResponse(b, courses) {
      SelectMembers(rows, toResponse, v);
    }
    r
  }

  /** The stored book after `UpdateBookAsync`: every field from the request, links replaced. */
  function Revised(b: Book, request: BookRequest, now: Timestamp, courses: map<int, Course>): (u: Book)
    ensures u.id == b.id && u.createdAt == b.createdAt && u.updatedAt == now
    ensures && u.title == request.title && u.author == request.author && u.description == request.description
            && u.isbn == request.isbn && u.publicationYear == request.publicationYear
            && u.publisher == request.publisher && u.pages == request.pages && u.language == request.language
    ensures request.courseIds == [] ==> u.courseIds == []
    ensures request.courseIds != [] ==> u.courseIds == ResolveCourses(request.courseIds, courses)
    ensures forall id :: id in u.courseIds <==> id in request.courseIds && id in courses
  {
    var links := if request.courseIds != [] then ResolveCourses(request.courseIds, courses) else [];
    b.(title := request.title, author := request.author, description := request.description,
       isbn := request.isbn, publicationYear := request.publicationYear, publisher := request.publisher,
       pages := request.pages, language := request.language, updatedAt := now, courseIds := links)
  }

  /** The link list without `courseId`. */
  function Unlink(ids: seq<int>, courseId: int): (r: seq<int>)
    ensures forall id :: id in r <==> id in ids && id != courseId
    ensures NoDuplicates(ids) ==> NoDuplicates(r)
  {
    var p := (id: int) => id != courseId;
    if NoDuplicates(ids) then WhereKeepsDistinct(ids, p); Where(ids, p)
    else Where(ids, p)
  }

  class BookService {
    const context: SchoolDb

    constructor (context: SchoolDb)
      ensures this.context == context
    {
      this.context := context;
    }

    /** `GetAllBooksAsync`: every book by title. */
    function GetAllBooks(): (r: Envelope<seq<BookResponse>>)
      reads context
      ensures r.success && r.message == BooksLoaded && r.data.Some?
      ensures |r.data.value| == |context.books|
      ensures forall v :: v in r.data.value <==>
        exists b :: b in context.books.Values && v == MapToBookResponse(b, context.courses)
      ensures forall i, j | 0 <= i < j < |r.data.value| :: LexLe(r.data.value[i].title, r.data.value[j].title)
    {
      TitleOrders();
      AllKeys(context.books);
      SuccessResponseOf(MapAll(WhereOrdered(context.books, Anything(), TitleLe), context.courses), BooksLoaded)
    }

    /** `GetBookByIdAsync`. */
    function GetBookById(id: int): (r: Envelope<BookResponse>)
      reads context
      requires context.Valid()
      ensures Consistent(r)
      ensures id !in context.books ==> r == ErrorResponseOf(BookNotFound)
      ensures id in context.books ==>
        r == SuccessResponseOf(MapToBookResponse(context.books[id], context.courses), BookLoaded)
        && r.data.value.id == id
    {
      if id in context.books then SuccessResponseOf(MapToBookResponse(context.books[id], context.courses), BookLoaded)
      else ErrorResponseOf(BookNotFound)
    }

    /** `GetBooksByCourseAsync`: the books linked to that (existing) course, by title. */
    function GetBooksByCourse(courseId: int): (r: Envelope<seq<BookResponse>>)
      reads context
      ensures r.success && r.message == CourseBooksLoaded && r.data.Some?
      ensures |r.data.value| == |set k | k in context.books && LinkedTo(context.books[k], courseId, context.courses)|
      ensures forall v :: v in r.data.value <==>
        exists b :: b in context.books.Values && courseId in b.courseIds && courseId in context.courses
                    && v == MapToBookResponse(b, context.courses)
      ensures courseId !in context.courses ==> r.data.value == []
      ensures forall i, j | 0 <= i < j < |r.data.value| :: LexLe(r.data.value[i].title, r.data.value[j].title)
    {
      TitleOrders();
      CourseKeys(context.books, courseId, context.courses);
      var rows := WhereOrdered(context.books, LinkedToCourse(courseId, context.courses), TitleLe);
      SuccessResponseOf(MapAll(rows, context.courses), CourseBooksLoaded)
    }

    /**
     * `CreateBookAsync`: a new book stamped `now`, linked to the existing courses among the
     * requested ids; unknown ids are silently dropped.
     */
    method CreateBook(request: BookRequest, now: Timestamp) returns (r: Envelope<BookResponse>)
      requires context.Valid()
      modifies context`books, context`nextBookId
      ensures context.Valid()
      ensures var id := old(context.nextBookId);
        var links := if request.courseIds != [] then ResolveCourses(request.courseIds, context.courses) else [];
        var b := Book(id, request.title, request.author, request.description, request.isbn,
                      request.publicationYear, request.publisher, request.pages, request.language, now, now, links);
        && id !in old(context.books)
        && context.books == old(context.books)[id := b]
        && context.nextBookId == id + 1
        && r == SuccessResponseOf(MapToBookResponse(b, context.courses), BookCreated)
      ensures r.success && r.data.Some?
      ensures forall c :: c in context.books[old(context.nextBookId)].courseIds <==>
                          c in request.courseIds && c in context.courses
    {
      var links := [];
      if request.courseIds != [] {
        links := ResolveCourses(request.courseIds, context.courses);
      }
      var book := Book(context.nextBookId, request.title, request.author, request.description, request.isbn,
                       request.publicationYear, request.publisher, request.pages, request.language, now, now, links);
      context.books := context.books[book.id := book];
      context.nextBookId := context.nextBookId + 1;
      r := SuccessResponseOf(MapToBookResponse(book, context.courses), BookCreated);
    }

    /**
     * `UpdateBookAsync`: overwrites every field and restamps the book; the links become the
     * existing courses among the requested ids, or none when no id is requested.
     */
    method UpdateBook(id: int, request: BookRequest, now: Timestamp) returns (r: Envelope<BookResponse>)
      requires context.Valid()
      modifies context`books
      ensures context.Valid()
      ensures Consistent(r)
      ensures id !in old(context.books) ==>
        r == ErrorResponseOf(BookNotFound) && context.books == old(context.books)
      ensures id in old(context.books) ==>
        (var b := Revised(old(context.books)[id], request, now, context.courses);
         && context.books == old(context.books)[id := b]
         && r == SuccessResponseOf(MapToBookResponse(b, context.courses), BookUpdated))
    {
      if id !in context.books {
        return ErrorResponseOf(BookNotFound);
      }
      var book := context.books[id];
      book := book.(title := request.title, author := request.author, description := request.description);
      book := book.(isbn := request.isbn, publicationYear := request.publicationYear, publisher := request.publisher);
      book := book.(pages := request.pages, language := request.language, updatedAt := now);
      var links := [];
      if request.courseIds != [] {
        links := ResolveCourses(request.courseIds, context.courses);
      }
      book := book.(courseIds := links);
      assert book == Revised(context.books[id], request, now, context.courses);
      assert NoDuplicates(book.courseIds);
      var books := context.books[id := book];
      assert forall k | k in books :: books[k].id == k && 0 < k < context.nextBookId;
      assert LinksDistinct(books);
      context.books := books;
      r := SuccessResponseOf(MapToBookResponse(book, context.courses), BookUpdated);
    }

    /** `DeleteBookAsync`: removes the book and with it its links. */
    method DeleteBook(id: int) returns (r: Response)
      requires context.Valid()
      modifies context`books
      ensures context.Valid()
      ensures id !in old(context.books) ==>
        r == ErrorResponse(BookNotFound) && context.books == old(context.books)
      ensures id in old(context.books) ==>
        r == SuccessResponse(BookDeleted) && context.books == old(context.books) - {id}
    {
      if id !in context.books {
        return ErrorResponse(BookNotFound);
      }
      context.books := context.books - {id};
      r := SuccessResponse(BookDeleted);
    }

    /**
     * `AddBookToCourseAsync`: the book and the course must exist and must not be linked yet;
     * the course is appended to the book's links, which stay duplicate-free.
     */
    method AddBookToCourse(bookId: int, courseId: int) returns (r: Response)
      requires context.Valid()
      modifies context`books
      ensures context.Valid()
      ensures !r.success ==> context.books == old(context.books)
      ensures bookId !in old(context.books) ==> r == ErrorResponse(BookNotFound)
      ensures bookId in old(context.books) && courseId !in context.courses ==> r == ErrorResponse(CourseNotFound)
      ensures && bookId in old(context.books) && courseId in context.courses
              && courseId in old(context.books)[bookId].courseIds
              ==> r == ErrorResponse(AlreadyLinked)
      ensures && bookId in old(context.books) && courseId in context.courses
              && courseId !in old(context.books)[bookId].courseIds
              ==> (var b := old(context.books)[bookId];
                   && context.books == old(context.books)[bookId := b.(courseIds := b.courseIds + [courseId])]
                   && r == SuccessResponse(Linked))
    {
      if bookId !in context.books {
        return ErrorResponse(BookNotFound);
      }
      if courseId !in context.courses {
        return ErrorResponse(CourseNotFound);
      }
      var book := context.books[bookId];
      if LinkedTo(book, courseId, context.courses) {
        return ErrorResponse(AlreadyLinked);
      }
      book := book.(courseIds := book.courseIds + [courseId]);
      context.books := context.books[bookId := book];
      r := SuccessResponse(Linked);
    }

    /**
     * `RemoveBookFromCourseAsync`: the book must exist and be linked to the (existing)
     * course; exactly that link is removed.
     */
    method RemoveBookFromCourse(bookId: int, courseId: int) returns (r: Response)
      requires context.Valid()
      modifies context`books
      ensures context.Valid()
      ensures !r.success ==> context.books == old(context.books)
      ensures bookId !in old(context.books) ==> r == ErrorResponse(BookNotFound)
      ensures bookId in old(context.books) && !LinkedTo(old(context.books)[bookId], courseId, context.courses) ==>
        r == ErrorResponse(NotLinked)
      ensures bookId in old(context.books) && LinkedTo(old(context.books)[bookId], courseId, context.courses) ==>
        (var b := old(context.books)[bookId];
         && context.books == old(context.books)[bookId := b.(courseIds := Unlink(b.courseIds, courseId))]
         && r == SuccessResponse(Unlinked))
    {
      if bookId !in context.books {
        return ErrorResponse(BookNotFound);
      }
      var book := context.books[bookId];
      if !LinkedTo(book, courseId, context.courses) {
        return ErrorResponse(NotLinked);
      }
      book := book.(courseIds := Unlink(book.courseIds, courseId));
      context.books := context.books[bookId := book];
      r := SuccessResponse(Unlinked);
    }
  }
}
