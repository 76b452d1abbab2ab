/**
 * The book registry of the service as values: the record type, the seed
 * list, the first-match lookup and the effect of the checkout and return
 * handlers on the list, with the properties those handlers promise.
 */
module Books {
  import opened Wrappers

  /** One record of the registry. `quantity` is the number of copies on the shelf. */
  datatype Book = Book(id: string, title: string, author: string, quantity: int)

  /** What a handler answers, with its HTTP layer removed. */
  datatype Outcome =
    | MissingParameter   // 400: the `id` query parameter is absent
    | NotFound           // 404: no record has that id
    | Unavailable        // 400: the record has no copy left
    | Ok(book: Book)     // 200/201: the (updated) record

  /** A handler's answer together with the list it leaves behind. */
  datatype Step = Step(outcome: Outcome, after: seq<Book>)

  /** The four records the process starts with. */
  function Seed(): (r: seq<Book>)
    ensures |r| == 4 && NoNegativeQuantity(r)
    ensures forall i, j :: 0 <= i < j < |r| ==> r[i].id != r[j].id
  {
    [ Book("1", "Golang pointers", "Mr. Golang", 2),
      Book("2", "Goroutines", "Mr. Goroutine", 20),
      Book("3", "Golang routers", "Mr. Router", 30),
      Book("4", "Golang concurrency", "Mr. Currency", 40) ]
  }

  /** `i` is the first position of `s` holding a record with this id. */
  ghost predicate IsFirstMatch(s: seq<Book>, id: string, i: int)
  {
    0 <= i < |s| && s[i].id == id && forall j :: 0 <= j < i ==> s[j].id != id
  }

  /** No record of `s` has this id. */
  ghost predicate Absent(s: seq<Book>, id: string)
  {
    forall j :: 0 <= j < |s| ==> s[j].id != id
  }

  /** Every record of `s` has a non-negative number of copies. */
  ghost predicate NoNegativeQuantity(s: seq<Book>)
  {
    forall j :: 0 <= j < |s| ==> s[j].quantity >= 0
  }

  /** The position a scan from the front stops at: the first record with this id. */
  function FirstIndex(s: seq<Book>, id: string): (r: Option<nat>)
    ensures r.Some? ==> IsFirstMatch(s, id, r.value)
    ensures r.None? <==> Absent(s, id)
  {
    if |s| == 0 then None
    else if s[0].id == id then Some(0)
    else
      match FirstIndex(s[1..], id)
      case None => None
      case Some(k) => Some(k + 1)
  }

  /** The list with the record at `i` holding `q` copies and everything else as before. */
  function WithQuantity(s: seq<Book>, i: nat, q: int): seq<Book>
    requires i < |s|
  {
    s[i := s[i].(quantity := q)]
  }

  /** Checkout: guarded decrement of the first match's quantity. */
  function CheckoutStep(s: seq<Book>, id: Option<string>): (r: Step)
    ensures |r.after| == |s|
    ensures !r.outcome.Ok? ==> r.after == s
    ensures forall j :: 0 <= j < |s| ==> r.after[j].id == s[j].id
  {
    match id
    case None => Step(MissingParameter, s)
    case Some(key) =>
      match FirstIndex(s, key)
      case None => Step(NotFound, s)
      case Some(i) =>
        if s[i].quantity <= 0 then Step(Unavailable, s)
        else
          var s' := WithQuantity(s, i, s[i].quantity - 1);
          Step(Ok(s'[i]), s')
  }

  /** Return: unguarded increment of the first match's quantity. */
  function ReturnStep(s: seq<Book>, id: Option<string>): (r: Step)
    ensures |r.after| == |s| && r.outcome != Unavailable
    ensures !r.outcome.Ok? ==> r.after == s
    ensures forall j :: 0 <= j < |s| ==> r.after[j].id == s[j].id
  {
    match id
    case None => Step(MissingParameter, s)
    case Some(key) =>
      match FirstIndex(s, key)
      case None => Step(NotFound, s)
      case Some(i) =>
        var s' := WithQuantity(s, i, s[i].quantity + 1);
        Step(Ok(s'[i]), s')
  }

  /** A record found by the scan is the only first match: the scan's answer is determined. */
  lemma FirstMatchUnique(s: seq<Book>, id: string, i: int)
    requires IsFirstMatch(s, id, i)
    ensures FirstIndex(s, id) == Some(i)
  {
  }

  /** Appending a record never changes which earlier record a lookup finds;
      the new record is found only when no earlier one has its id, so a
      duplicate id is accepted and stays shadowed. */
  lemma AppendLookup(s: seq<Book>, b: Book, id: string)
    ensures FirstIndex(s + [b], id) ==
              if FirstIndex(s, id).Some? then FirstIndex(s, id)
              else if b.id == id then Some(|s|)
              else None
  {
    var t := s + [b];
    match FirstIndex(s, id)
    case Some(i) =>
      assert t[i] == s[i];
      forall j | 0 <= j < i ensures t[j].id != id { assert t[j] == s[j]; }
      FirstMatchUnique(t, id, i);
    case None =>
      forall j | 0 <= j < |s| ensures t[j].id != id { assert t[j] == s[j]; }
      if b.id == id {
        FirstMatchUnique(t, id, |s|);
      } else {
        assert Absent(t, id) by {
          forall j | 0 <= j < |t| ensures t[j].id != id {
            if j == |s| { assert t[j] == b; }
          }
        }
      }
  }

  /** Checkout fails with MissingParameter exactly when no id is given, with
      NotFound exactly when no record has the id, and leaves the list as it was
      whenever it fails. */
  lemma CheckoutRejects(s: seq<Book>, id: Option<string>)
    ensures CheckoutStep(s, id).outcome == MissingParameter <==> id.None?
    ensures CheckoutStep(s, id).outcome == NotFound <==> id.Some? && Absent(s, id.value)
    ensures !CheckoutStep(s, id).outcome.Ok? ==> CheckoutStep(s, id).after == s
  {
  }

  /** Checkout on the first record with the id: no copy left gives Unavailable
      and no change; otherwise that record loses exactly one copy, keeps its
      id, title and author, is what the handler answers, and every other
      record stays as it was. */
  lemma CheckoutFound(s: seq<Book>, id: string, i: int)
    requires IsFirstMatch(s, id, i)
    ensures s[i].quantity <= 0 ==> CheckoutStep(s, Some(id)) == Step(Unavailable, s)
    ensures s[i].quantity > 0 ==>
      var st := CheckoutStep(s, Some(id));
      && st.after[i] == Book(s[i].id, s[i].title, s[i].author, s[i].quantity - 1)
      && st.outcome == Ok(st.after[i])
      && forall j :: 0 <= j < |s| && j != i ==> st.after[j] == s[j]
  {
    FirstMatchUnique(s, id, i);
  }

  /** Return fails with MissingParameter exactly when no id is given, with
      NotFound exactly when no record has the id, and leaves the list as it was
      whenever it fails. */
  lemma ReturnRejects(s: seq<Book>, id: Option<string>)
    ensures ReturnStep(s, id).outcome == MissingParameter <==> id.None?
    ensures ReturnStep(s, id).outcome == NotFound <==> id.Some? && Absent(s, id.value)
    ensures !ReturnStep(s, id).outcome.Ok? ==> ReturnStep(s, id).after == s
    ensures ReturnStep(s, id).outcome != Unavailable
  {
  }

  /** Return on the first record with the id: whatever its quantity, that record
      gains exactly one copy, keeps its id, title and author, is what the
      handler answers, and every other record stays as it was. */
  lemma ReturnFound(s: seq<Book>, id: string, i: int)
    requires IsFirstMatch(s, id, i)
    ensures
      var st := ReturnStep(s, Some(id));
      && st.after[i] == Book(s[i].id, s[i].title, s[i].author, s[i].quantity + 1)
      && st.outcome == Ok(st.after[i])
      && forall j :: 0 <= j < |s| && j != i ==> st.after[j] == s[j]
  {
    FirstMatchUnique(s, id, i);
  }

  /** The availability guard keeps every quantity non-negative under checkout. */
  lemma CheckoutKeepsStock(s: seq<Book>, id: Option<string>)
    requires NoNegativeQuantity(s)
    ensures NoNegativeQuantity(CheckoutStep(s, id).after)
  {
    if id.Some? && FirstIndex(s, id.value).Some? {
      CheckoutFound(s, id.value, FirstIndex(s, id.value).value);
    }
  }

  /** Return only ever adds copies, so it keeps every quantity non-negative too. */
  lemma ReturnKeepsStock(s: seq<Book>, id: Option<string>)
    requires NoNegativeQuantity(s)
    ensures NoNegativeQuantity(ReturnStep(s, id).after)
  {
    if id.Some? && FirstIndex(s, id.value).Some? {
      ReturnFound(s, id.value, FirstIndex(s, id.value).value);
    }
  }

  /** A successful checkout followed by a return of the same id restores the
      list, and the return answers with the record as it was before the checkout. */
  lemma CheckoutThenReturn(s: seq<Book>, id: string, i: int)
    requires IsFirstMatch(s, id, i) && s[i].quantity > 0
    ensures CheckoutStep(s, Some(id)).outcome.Ok?
    ensures ReturnStep(CheckoutStep(s, Some(id)).after, Some(id)) == Step(Ok(s[i]), s)
  {
    CheckoutFound(s, id, i);
    var t := CheckoutStep(s, Some(id)).after;
    assert IsFirstMatch(t, id, i) by {
      forall j | 0 <= j < i ensures t[j].id != id { assert t[j] == s[j]; }
    }
    ReturnFound(t, id, i);
    var u := ReturnStep(t, Some(id)).after;
    assert u == s by {
      forall j | 0 <= j < |s| ensures u[j] == s[j] {
        if j != i { assert u[j] == t[j]; }
      }
    }
  }

  /** A return followed by a checkout of the same id restores the list when the
      record had no negative quantity, and the checkout answers with the record
      as it was before the return. */
  lemma ReturnThenCheckout(s: seq<Book>, id: string, i: int)
    requires IsFirstMatch(s, id, i) && s[i].quantity >= 0
    ensures CheckoutStep(ReturnStep(s, Some(id)).after, Some(id)) == Step(Ok(s[i]), s)
  {
    ReturnFound(s, id, i);
    var t := ReturnStep(s, Some(id)).after;
    assert IsFirstMatch(t, id, i) by {
      forall j | 0 <= j < i ensures t[j].id != id { assert t[j] == s[j]; }
    }
    CheckoutFound(t, id, i);
    var u := CheckoutStep(t, Some(id)).after;
    assert u == s by {
      forall j | 0 <= j < |s| ensures u[j] == s[j] {
        if j != i { assert u[j] == t[j]; }
      }
    }
  }

  /** The seed list: ids "1" to "4" in order, each found where it was written,
      with the quantities it was written with. */
  lemma SeedLookup()
    ensures FirstIndex(Seed(), "1") == Some(0) && Seed()[0].quantity == 2
    ensures FirstIndex(Seed(), "2") == Some(1) && Seed()[1].quantity == 20
    ensures FirstIndex(Seed(), "3") == Some(2) && Seed()[2].quantity == 30
    ensures FirstIndex(Seed(), "4") == Some(3) && Seed()[3].quantity == 40
    ensures FirstIndex(Seed(), "999") == None
  {
    var s := Seed();
    assert "1" != "2" && "1" != "3" && "1" != "4";
    assert "2" != "3" && "2" != "4" && "3" != "4";
    FirstMatchUnique(s, "1", 0);
    FirstMatchUnique(s, "2", 1);
    FirstMatchUnique(s, "3", 2);
    FirstMatchUnique(s, "4", 3);
    assert Absent(s, "999") by {
      forall j | 0 <= j < 4 ensures s[j].id != "999" {
        assert |s[j].id| == 1;
      }
    }
  }

  /** Starting from the seed list, id "1" (two copies) can be checked out twice;
      the third checkout is refused as unavailable without a change, a return
      then succeeds, and a request without an id is refused. */
  lemma SeedCheckoutScenario()
    ensures
      var s1 := CheckoutStep(Seed(), Some("1"));
      var s2 := CheckoutStep(s1.after, Some("1"));
      var s3 := CheckoutStep(s2.after, Some("1"));
      var s4 := ReturnStep(s3.after, Some("1"));
      && s1.outcome == Ok(Book("1", "Golang pointers", "Mr. Golang", 1))
      && s2.outcome == Ok(Book("1", "Golang pointers", "Mr. Golang", 0))
      && s3 == Step(Unavailable, s2.after)
      && s4.outcome == Ok(Book("1", "Golang pointers", "Mr. Golang", 1))
      && CheckoutStep(Seed(), None) == Step(MissingParameter, Seed())
  {
    SeedLookup();
    var s := Seed();
    CheckoutFound(s, "1", 0);
    var t1 := CheckoutStep(s, Some("1")).after;
    assert IsFirstMatch(t1, "1", 0);
    CheckoutFound(t1, "1", 0);
    var t2 := CheckoutStep(t1, Some("1")).after;
    assert IsFirstMatch(t2, "1", 0);
    CheckoutFound(t2, "1", 0);
    ReturnFound(t2, "1", 0);
  }
}
