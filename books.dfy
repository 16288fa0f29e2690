/** The book record, the request payload of create and update, the list
    view of a book, and the validation both mutating handlers apply. */
module Books {

  datatype Option<T> = None | Some(value: T)

  /** A stored book. `finished` is derived from the page counts and
      `insertedAt`/`updatedAt` are ISO timestamps, kept as text. */
  datatype Book = Book(
    id: string,
    name: string,
    year: int,
    author: string,
    summary: string,
    publisher: string,
    pageCount: int,
    readPage: int,
    finished: bool,
    reading: bool,
    insertedAt: string,
    updatedAt: string)

  /** The request body of create and update. A missing `name` is the empty
      string: both are falsy to the handlers' `!name` test. */
  datatype Payload = Payload(
    name: string,
    year: int,
    author: string,
    summary: string,
    publisher: string,
    pageCount: int,
    readPage: int,
    reading: bool)

  /** What the list handler returns for each book. */
  datatype Summary = Summary(id: string, name: string, publisher: string)

  /** Why a payload is refused. */
  datatype Problem = NameMissing | ReadPageExceedsPageCount

  /** The payload checks of create and update, in the order the handlers make
      them: a missing name is reported before a read page past the end. */
  function Rejection(p: Payload): (r: Option<Problem>)
    ensures r == Some(NameMissing) <==> p.name == ""
    ensures r == Some(ReadPageExceedsPageCount) <==> p.name != "" && p.readPage > p.pageCount
    ensures r == None <==> p.name != "" && p.readPage <= p.pageCount
  {
    if p.name == "" then Some(NameMissing)
    else if p.readPage > p.pageCount then Some(ReadPageExceedsPageCount)
    else None
  }

  /** The record the create handler builds from a payload: the given id,
      every payload field, `finished` iff the book is read to the last page,
      and one timestamp for both insertion and update. */
  function NewBook(id: string, p: Payload, now: string): (r: Book)
    ensures r.id == id
    ensures r.name == p.name && r.year == p.year && r.author == p.author
    ensures r.summary == p.summary && r.publisher == p.publisher
    ensures r.pageCount == p.pageCount && r.readPage == p.readPage && r.reading == p.reading
    ensures r.finished <==> p.pageCount == p.readPage
    ensures r.insertedAt == r.updatedAt == now
  {
    Book(id, p.name, p.year, p.author, p.summary, p.publisher, p.pageCount,
         p.readPage, p.pageCount == p.readPage, p.reading, now, now)
  }

  /** The record the update handler writes: the payload spread over the old
      record, with `finished` recomputed and `updatedAt` refreshed. */
  function Merge(b: Book, p: Payload, now: string): (r: Book)
    ensures r.id == b.id && r.insertedAt == b.insertedAt
    ensures r.name == p.name && r.year == p.year && r.author == p.author
    ensures r.summary == p.summary && r.publisher == p.publisher
    ensures r.pageCount == p.pageCount && r.readPage == p.readPage && r.reading == p.reading
    ensures r.finished <==> p.pageCount == p.readPage
    ensures r.updatedAt == now
  {
    b.(name := p.name, year := p.year, author := p.author, summary := p.summary,
       publisher := p.publisher, pageCount := p.pageCount, readPage := p.readPage,
       reading := p.reading, updatedAt := now, finished := p.pageCount == p.readPage)
  }

  /** The `{id, name, publisher}` projection of the list view. */
  function Summarize(b: Book): (v: Summary)
    ensures v.id == b.id && v.name == b.name && v.publisher == b.publisher
  {
    Summary(b.id, b.name, b.publisher)
  }

  /** An update gives the record a fresh create with the same payload would
      have, except that it keeps its identity and its insertion time. */
  lemma MergeIsRecreate(b: Book, p: Payload, now: string)
    ensures Merge(b, p, now) == NewBook(b.id, p, now).(insertedAt := b.insertedAt)
  {
  }

  /** Only the last of two updates shows in the record. */
  lemma MergeLastWins(b: Book, p: Payload, q: Payload, t: string, u: string)
    ensures Merge(Merge(b, p, t), q, u) == Merge(b, q, u)
  {
  }
}
