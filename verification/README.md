# Book registry of go-rest-api, modelled in Dafny

The service keeps one process-wide, in-memory list of book records
(`id`, `title`, `author`, `quantity`). It starts with four seed records and
serves five requests: list all records, create one, fetch one by id, check
a copy out (decrement `quantity` if it is positive) and return a copy
(increment `quantity` with no bound). The HTTP router is not part of this
model. What remains is the registry and the decisions each handler makes.

- `wrappers.dfy`: `Option`. It stands for the optional `id` query parameter and for the lookup result.
- `books.dfy` (module `Books`): the `Book` record and the seed list. It also holds the handler outcome
  (`MissingParameter | NotFound | Unavailable | Ok(book)`) and the
  first-match lookup `FirstIndex`. `CheckoutStep` and `ReturnStep` describe
  what checkout and return answer and what list they leave behind. The
  lemmas state what those handlers promise.
- `store.dfy` (module `Store`): class `BookStore`. Its `books: seq<Book>`
  field stands for the global slice. The methods are the handlers with
  their HTTP layer removed. The Go code takes a pointer `&books[i]` and
  writes through it. Here that is "find the index, then update that slot".
  `Checkout` and `Return` are proved equal to `CheckoutStep` and
  `ReturnStep` applied to the old list.

A successful checkout or return answers with the record as it is after the
update, because the Go handler writes the pointer after changing it
(main.go:105, main.go:127).

The seed gives id "1" two copies (main.go:19), so the third checkout of
id "1" is refused; `SeedCheckoutScenario` proves this.

## Model

| member | source | states |
|---|---|---|
| `Books.Seed` | main.go:18-23 | the four starting records: every quantity is non-negative and no two records share an id (their exact contents are stated by `Books.SeedLookup`) |
| `Books.CheckoutStep` | main.go:84-105 | what `checkoutBook` answers and the list it leaves behind. The list keeps its length and every id, and it is unchanged unless the answer is Ok. The cases are stated by `Books.CheckoutRejects` and `Books.CheckoutFound` |
| `Books.ReturnStep` | main.go:112-127 | what `returnBook` answers and the list it leaves behind. It never answers Unavailable, the list keeps its length and every id, and it is unchanged unless the answer is Ok. The cases are stated by `Books.ReturnRejects` and `Books.ReturnFound` |
| `Books.FirstIndex` | main.go:71-78 | the scan returns a position holding the id with no earlier record holding it, and it fails exactly when no record has the id |
| `Books.FirstMatchUnique` | main.go:72-76 | any first position holding the id is the one the scan returns, so the lookup's answer is unique |
| `Books.AppendLookup` | main.go:50 | after an append, a lookup finds the same record it found before. The new record is found only when no earlier one shares its id, so a duplicate id is accepted and stays shadowed |
| `Books.CheckoutRejects` | main.go:84-96 | checkout gives MissingParameter exactly when no id is given and NotFound exactly when no record has the id. On every failure the list is unchanged |
| `Books.CheckoutFound` | main.go:98-105 | if the first match has quantity <= 0, checkout gives Unavailable and changes nothing. Otherwise that record loses exactly one copy and keeps id, title and author. It is also the answer, and every other record is unchanged |
| `Books.ReturnRejects` | main.go:112-124 | return gives MissingParameter exactly when no id is given and NotFound exactly when no record has the id. It never gives Unavailable, and on failure the list is unchanged |
| `Books.ReturnFound` | main.go:126-127 | the first match gains exactly one copy whatever its quantity and keeps id, title and author. It is also the answer, and every other record is unchanged |
| `Books.CheckoutKeepsStock` | main.go:98-103 | if no quantity is negative before a checkout, none is negative after it, because of the `<= 0` guard |
| `Books.ReturnKeepsStock` | main.go:126 | if no quantity is negative before a return, none is negative after it |
| `Books.CheckoutThenReturn` | main.go:98-127 | a successful checkout followed by a return of the same id restores the list, and the return answers with the original record |
| `Books.ReturnThenCheckout` | main.go:98-127 | if the quantity is not negative, a return followed by a checkout of the same id restores the list, and the checkout answers with the original record |
| `Books.SeedLookup` | main.go:18-23 | the seed has four records with ids "1" to "4" at positions 0 to 3 and quantities 2/20/30/40, and "999" is not found |
| `Books.SeedCheckoutScenario` | main.go:18-127 | starting from the seed, id "1" can be checked out twice (quantities 1, then 0). The third checkout is Unavailable and changes nothing. A return then yields quantity 1, and a checkout with no id is MissingParameter |
| `Store.BookStore.constructor` | main.go:18-23 | the store starts out holding exactly the four seed records |
| `Store.BookStore.List` | main.go:28-30 | listing answers every record in insertion order |
| `Store.BookStore.GetById` | main.go:71-78 | the loop returns the position `FirstIndex` gives and does not modify the store |
| `Store.BookStore.BookById` | main.go:55-66 | fetching gives NotFound exactly when no record has the id, and otherwise the first record that has it |
| `Store.BookStore.Create` | main.go:43-52 | the given record is appended unchanged at the end, with every earlier record unchanged, and it is the answer |
| `Store.BookStore.Checkout` | main.go:83-106 | the new list and the answer are those of `CheckoutStep` on the old list |
| `Store.BookStore.Return` | main.go:111-128 | the new list and the answer are those of `ReturnStep` on the old list |

## Left out

- HTTP routing, the server address and the JSON responses (main.go:29, main.go:132-138). The router library is not part of this model. Outcomes are not mapped to status codes or message texts; the comments on `Outcome` name the status each one stands for.
- JSON decoding of the create payload (main.go:46-48). `Create` takes an already decoded record, and the silent return on a malformed payload is not modelled.
- Concurrency. Requests run one at a time in the model, so the check-then-act race in checkout, which can drive a quantity negative, is not represented.
- Go `int` overflow. `quantity` is an unbounded integer, so the 64-bit wrap-around is not modelled. Create can store a record at the 64-bit maximum (main.go:44-50). One return on it wraps the quantity to the minimum (main.go:126), and the next checkout is then Unavailable (main.go:98). So `Books.ReturnKeepsStock` and `Books.ReturnThenCheckout` hold for the Go program only when the quantity is below 2^63-1.
- Create adds a record with any quantity, including a negative one, since there is no field validation. So "no quantity is negative" is preserved by checkout and return only, not by create.
