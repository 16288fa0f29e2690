/** The five request handlers over the shared book table, each returning
    the response envelope `{status, message?, data?}` with its status code. */
module Handler {
  import opened Books
  import opened Store
  import opened Listing

  datatype Status = Success | Fail

  /** The `data` member of the envelope. */
  datatype Data =
    | NoData
    | CreatedId(bookId: string)
    | BookList(books: seq<Summary>)
    | OneBook(book: Book)

  datatype Response = Response(code: int, status: Status, message: Option<string>, data: Data)

  const AddNoName := "Gagal menambahkan buku. Mohon isi nama buku"
  const AddReadPage := "Gagal menambahkan buku. readPage tidak boleh lebih besar dari pageCount"
  const Added := "Buku berhasil ditambahkan"
  const AddFailed := "Ada masalah saat menambahkan buku. Coba lagi"
  const NotFound := "Buku tidak ditemukan"
  const EditNotFound := "Gagal memperbarui buku. Id tidak ditemukan"
  const EditNoName := "Gagal memperbarui buku. Mohon isi nama buku"
  const EditReadPage := "Gagal memperbarui buku. readPage tidak boleh lebih besar dari pageCount"
  const Edited := "Buku berhasil diperbarui"
  const DeleteNotFound := "Buku gagal dihapus. Id tidak ditemukan"
  const Deleted := "Buku berhasil dihapus"

  function Refuse(code: int, message: string): (r: Response)
  {
    Response(code, Fail, Some(message), NoData)
  }

  /** The `forEach` of the list handler: each slot of the filtered copy is
      overwritten with the book's `{id, name, publisher}`. */
  method Project(filtered: seq<Book>) returns (view: seq<Summary>)
    ensures view == Summaries(filtered)
  {
    var slots := new Summary[|filtered|];
    for i := 0 to |filtered|
      invariant forall k :: 0 <= k < i ==> slots[k] == Summarize(filtered[k])
    {
      slots[i] := Summarize(filtered[i]);
    }
    view := slots[..];
  }

  /** The book table the handlers share. Its initial contents are whatever
      the `books` module holds, so nothing is assumed about them. */
  class Bookshelf {
    var books: seq<Book>

    constructor (initial: seq<Book>)
      ensures books == initial
    {
      books := initial;
    }

    /** POST /books. `freshId` stands for the generated id and `now` for the
        current time. Ids stay unique when the generated id is fresh. */
    method AddBook(p: Payload, freshId: string, now: string) returns (resp: Response)
      modifies this
      ensures p.name == "" ==> resp == Refuse(400, AddNoName) && books == old(books)
      ensures p.name != "" && p.readPage > p.pageCount ==>
                resp == Refuse(400, AddReadPage) && books == old(books)
      ensures Rejection(p) == None ==>
                && books == old(books) + [NewBook(freshId, p, now)]
                && resp == Response(201, Success, Some(Added), CreatedId(freshId))
      ensures resp.code != 500
      ensures UniqueIds(old(books)) && IdAbsent(old(books), freshId) ==> UniqueIds(books)
    {
      var newBook := NewBook(freshId, p, now);
      if p.name == "" {
        resp := Refuse(400, AddNoName);
      } else if p.readPage > p.pageCount {
        resp := Refuse(400, AddReadPage);
      } else {
        var before := books;
        books := books + [newBook];
        if UniqueIds(before) && IdAbsent(before, freshId) {
          FreshAppendUnique(before, newBook);
        }
        AppendedIsFound(before, newBook);
        var isAdded := |WithId(books, freshId)| > 0;
        if isAdded {
          resp := Response(201, Success, Some(Added), CreatedId(freshId));
        } else {
          assert false;
          resp := Refuse(500, AddFailed);
        }
      }
    }

    /** GET /books. Reads the table and never changes it (no `modifies`). */
    method ListBooks(q: Query) returns (resp: Response)
      ensures resp == Response(200, Success, None, BookList(Summaries(Filtered(books, q))))
    {
      var filtered := Filtered(books, q);
      var view := Project(filtered);
      resp := Response(200, Success, None, BookList(view));
    }

    /** GET /books/{id}: the first record with the id, unmodified. */
    method GetBook(id: string) returns (resp: Response)
      ensures FindIndex(books, id) == -1 ==> resp == Refuse(404, NotFound)
      ensures FindIndex(books, id) >= 0 ==>
                resp == Response(200, Success, None, OneBook(books[FindIndex(books, id)]))
    {
      var book := FirstWithId(books, id);
      FirstWithIdIsFindIndex(books, id);
      if book == None {
        resp := Refuse(404, NotFound);
      } else {
        resp := Response(200, Success, None, OneBook(book.value));
      }
    }

    /** PUT /books/{id}. An unknown id is reported before the payload is
        looked at; a success overwrites only the first record with the id. */
    method EditBook(id: string, p: Payload, now: string) returns (resp: Response)
      modifies this
      ensures FindIndex(old(books), id) == -1 ==>
                resp == Refuse(404, EditNotFound) && books == old(books)
      ensures FindIndex(old(books), id) >= 0 && p.name == "" ==>
                resp == Refuse(400, EditNoName) && books == old(books)
      ensures FindIndex(old(books), id) >= 0 && p.name != "" && p.readPage > p.pageCount ==>
                resp == Refuse(400, EditReadPage) && books == old(books)
      ensures FindIndex(old(books), id) >= 0 && Rejection(p) == None ==>
                var i := FindIndex(old(books), id);
                && books == old(books)[i := Merge(old(books)[i], p, now)]
                && resp == Response(200, Success, Some(Edited), NoData)
      ensures UniqueIds(old(books)) ==> UniqueIds(books)
    {
      var index := FindIndex(books, id);
      if index == -1 {
        resp := Refuse(404, EditNotFound);
      } else if p.name == "" {
        resp := Refuse(400, EditNoName);
      } else if p.readPage > p.pageCount {
        resp := Refuse(400, EditReadPage);
      } else {
        var merged := Merge(books[index], p, now);
        if UniqueIds(books) {
          ReplaceUnique(books, index, merged);
        }
        books := books[index := merged];
        resp := Response(200, Success, Some(Edited), NoData);
      }
    }

    /** DELETE /books/{id}: splices out the first record with the id. */
    method DeleteBook(id: string) returns (resp: Response)
      modifies this
      ensures FindIndex(old(books), id) == -1 ==>
                resp == Refuse(404, DeleteNotFound) && books == old(books)
      ensures FindIndex(old(books), id) >= 0 ==>
                && books == RemoveAt(old(books), FindIndex(old(books), id))
                && resp == Response(200, Success, Some(Deleted), NoData)
      ensures UniqueIds(old(books)) ==> UniqueIds(books)
      ensures UniqueIds(old(books)) ==> FindIndex(books, id) == -1
    {
      var index := FindIndex(books, id);
      if index == -1 {
        resp := Refuse(404, DeleteNotFound);
      } else {
        if UniqueIds(books) {
          RemoveUnique(books, index);
          RemoveFoundLeavesNone(books, id);
        }
        books := RemoveAt(books, index);
        resp := Response(200, Success, Some(Deleted), NoData);
      }
    }
  }
}
