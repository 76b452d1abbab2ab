/**
 * The registry as the service holds it: one process-wide list of records,
 * read by lookups and changed in place by create, checkout and return.
 */
module Store {
  import opened Wrappers
  import opened Books

  class BookStore {
    /** The records in insertion order; duplicates are allowed. */
    var books: seq<Book>

    /** The store as the process starts: the four seed records. */
    constructor ()
      ensures books == Seed()
    {
      books := Seed();
    }

    /** Listing hands back every record, in insertion order. */
    method List() returns (r: seq<Book>)
      ensures r == books
    {
      r := books;
    }

    /** The scan behind every lookup: the position of the first record with
        this id, or None when there is none. The store is not changed. */
    method GetById(id: string) returns (r: Option<nat>)
      ensures r == FirstIndex(books, id)
    {
      var i := 0;
      while i < |books|
        invariant 0 <= i <= |books|
        invariant forall j :: 0 <= j < i ==> books[j].id != id
      {
        if books[i].id == id {
          FirstMatchUnique(books, id, i);
          return Some(i);
        }
        i := i + 1;
      }
      r := None;
    }

    /** Fetching one record: NotFound exactly when no record has the id,
        otherwise the first record that has it. */
    method BookById(id: string) returns (o: Outcome)
      ensures Absent(books, id) <==> o == NotFound
      ensures forall i :: IsFirstMatch(books, id, i) ==> o == Ok(books[i])
    {
      var found := GetById(id);
      if found.None? {
        return NotFound;
      }
      o := Ok(books[found.value]);
      forall i | IsFirstMatch(books, id, i) ensures o == Ok(books[i]) {
        FirstMatchUnique(books, id, i);
      }
    }

    /** Creating a record appends the already decoded record as it is: no id
        check, no field check. */
    method Create(b: Book) returns (o: Outcome)
      modifies this
      ensures books == old(books) + [b]
      ensures o == Ok(b)
    {
      books := books + [b];
      o := Ok(b);
    }

    /** Checkout by the optional `id` query parameter. */
    method Checkout(id: Option<string>) returns (o: Outcome)
      modifies this
      ensures Step(o, books) == CheckoutStep(old(books), id)
    {
      if id.None? {
        return MissingParameter;
      }
      var found := GetById(id.value);
      if found.None? {
        return NotFound;
      }
      var i := found.value;
      if books[i].quantity <= 0 {
        return Unavailable;
      }
      books := books[i := books[i].(quantity := books[i].quantity - 1)];
      o := Ok(books[i]);
    }

    /** Return by the optional `id` query parameter. */
    method Return(id: Option<string>) returns (o: Outcome)
      modifies this
      ensures Step(o, books) == ReturnStep(old(books), id)
    {
      if id.None? {
        return MissingParameter;
      }
      var found := GetById(id.value);
      if found.None? {
        return NotFound;
      }
      var i := found.value;
      books := books[i := books[i].(quantity := books[i].quantity + 1)];
      o := Ok(books[i]);
    }
  }
}
