# Bookstore basket and checkout, in Dafny

This project models the two pieces of logic in the bookstore's `book.py` that
are more than page rendering:

- the **checkout validator** of the `/checkout` route. Five form strings (card
  number, cardholder name, month, year, cvv) lead to one of three outcomes.
  If every field is empty, nothing is validated and the form comes back
  without an error. If all four field checks pass, the route redirects to the
  success page. Otherwise the form comes back with its error flag set;
- the **shopping basket**, a map from book id to quantity. The single-book
  page sets a quantity. The remove route deletes an entry. The basket page
  lists every entry whose book is in the catalog and sums price times
  quantity, showing no total at all when the sum is zero.

Modules:

- `Text` (`text.dfy`): ASCII digit strings. It holds Python's `str.isdigit()`
  (`IsDigits`), `int()` on a digit string (`Value`) and `str.replace(c, "")`
  (`Delete`).
- `CardCheck` (`checkout.dfy`): card-number normalisation, the four field
  predicates, `Validate` (form to `NotValidated | Accepted | Rejected`) and
  `Checkout` (request to page).
- `ShoppingBasket` (`basket.dfy`): books, the catalog as a `map<int, Book>`,
  the basket as a `map<int, int>` value, `SetQuantity`, `Remove`, the
  reference sum `Subtotal`, its `Total`, and `ViewBasket`, which computes the
  basket page the way the route's loop does.

Prices are whole cents, so rounding the total to two decimals is the
identity. The basket is passed in and returned as a value, not kept as a
process-wide global. The catalog is passed in as a parameter and stands for
the database lookup `Book.query.get`.

Two consequences of what the code does:

- `Length(max=100)` at book.py:19 bounds the length of the submitted string,
  not its value, and `int()` at book.py:55 accepts any integer. So
  `SetQuantity` takes any `int`, and negative quantities reach the total.
- The normalised card number is used only inside the route, so `Validate`
  returns just the verdict.

## Model

| member | source | states |
|---|---|---|
| Text.Delete | book.py:93-94 | `replace(c, "")` leaves no `c` in the result and never lengthens the string |
| Text.DeleteKeepsOthers | book.py:93-94 | every character other than `c` survives `replace(c, "")`, as often as it occurred, and nothing else is in the result |
| Text.ValueIgnoresLeadingZero | book.py:97 | `int()` of a digit string ignores a leading zero, so "04" reads as 4 |
| Text.DeleteConcat | book.py:93-94 | deleting a character from a concatenation deletes it from each part, parts kept in order |
| Text.DeleteIdempotent | book.py:93-94 | a second `replace(c, "")` changes nothing |
| CardCheck.NormaliseContents | book.py:93-94 | the normalised card number holds no space or hyphen, and every other character as often as the input does |
| CardCheck.NormaliseIsFilter | book.py:93-94 | deleting spaces and then hyphens equals one left-to-right pass that keeps every non-separator, so the kept characters stay in their original order |
| CardCheck.NormaliseConcat | book.py:93-94 | normalisation works piecewise on a concatenation |
| CardCheck.NormaliseIdempotent | book.py:93-94 | normalising twice equals normalising once |
| CardCheck.NormaliseKeepsPlainNumbers | book.py:93-94 | a number without spaces or hyphens is unchanged |
| CardCheck.CardNumberIff | book.py:96 | a raw card number is valid iff it holds only digits, spaces and hyphens, and exactly 16 digits |
| CardCheck.GroupedNumberValid | book.py:93-96 | four groups of four digits joined by single spaces or hyphens form a valid card number |
| CardCheck.MonthIff | book.py:97 | a month is valid iff it is one of "1".."9", "01".."09", "10", "11", "12", so "0", "13" and "001" are not |
| CardCheck.Validate | book.py:92-104 | no validation iff all five fields are empty; otherwise accepted iff all four field checks hold; an accepted form has its card number, month, year and cvv all non-empty |
| CardCheck.AcceptedIff | book.py:92-104 | acceptance stated on the raw fields: 16 digits with separators, a month spelling of 1-12, a 2- or 4-digit year, a 3-digit cvv |
| CardCheck.RejectedIff | book.py:101-104 | the error flag is set iff some field is filled and some field check fails |
| CardCheck.CardholderIrrelevant | book.py:92-104 | changing the cardholder name never changes the verdict once validation runs |
| CardCheck.NameAloneRejected | book.py:92-96 | a form with only the cardholder name filled in is rejected, because an empty card number is not all digits |
| CardCheck.Checkout | book.py:81-106 | the route redirects to success iff a submitted form is accepted; it shows the error flag iff the form is rejected; a page load shows the form without error |
| CardCheck.EmptySubmissionShowsFormWithoutError | book.py:83-106 | an all-empty submission shows the form with the error flag false |
| CardCheck.SeparatedNumberAccepted | book.py:92-102 | "4111 1111-1111 1111", "04", "2028", "123" is accepted |
| CardCheck.ShortNumberRejected | book.py:96-104 | card number "123" is rejected |
| CardCheck.BadMonthsAndYearRejected | book.py:97-104 | months "0", "13", "001" and year "202" fail, so forms carrying them are rejected |
| ShoppingBasket.SetQuantity | book.py:55-56 | the entry for the id is inserted or overwritten with the new quantity; no other entry changes |
| ShoppingBasket.Remove | book.py:77-78 | only the entry for the id is deleted; nothing happens if it is absent |
| ShoppingBasket.SetOverwrites | book.py:56 | a second quantity for the same book replaces the first rather than accumulating |
| ShoppingBasket.SetCommutes | book.py:56 | quantities set for different books do not interfere |
| ShoppingBasket.RemoveIdempotent | book.py:77-78 | removing twice equals removing once |
| ShoppingBasket.RemoveAfterSet | book.py:77-78 | removing a book undoes setting its quantity |
| ShoppingBasket.UnknownIdStoredButNotPriced | book.py:53-56 | a quantity for an id missing from the catalog is stored, yet the total is as if the entry were absent |
| ShoppingBasket.ViewBasket | book.py:63-72 | every listed line is a catalog book with its basket quantity; exactly the resolvable ids are listed, each once; the total is the sum of price times quantity, absent when zero |
| ShoppingBasket.SubtotalPick | book.py:65-68 | any entry may be summed first, so the total does not depend on the order the entries are visited |
| ShoppingBasket.SubtotalIgnoresUnknown | book.py:66-68 | entries whose id is not in the catalog contribute nothing to the sum |
| ShoppingBasket.EmptyBasketHasNoTotal | book.py:70-72 | an empty basket has no total rather than a total of 0 |
| ShoppingBasket.UnknownBooksHaveNoTotal | book.py:65-72 | a basket none of whose ids resolve has no total |
| ShoppingBasket.SubtotalPositive | book.py:65-68 | with positive prices and quantities the sum is non-negative, and positive once some entry resolves |
| ShoppingBasket.TotalAbsentIff | book.py:65-72 | with positive prices and quantities, the total is absent iff no entry resolves in the catalog |
| ShoppingBasket.SubtotalAfterSet | book.py:56 | setting a quantity replaces that entry's contribution to the sum with the new one |
| ShoppingBasket.SubtotalAfterRemove | book.py:77-78 | removing an entry takes exactly its contribution off the sum |
| ShoppingBasket.SampleBasketTotal | book.py:63-72 | two 12.50 books, one 8.99 book and an unknown id total 33.99 |

## Left out

- Flask routing, templates, redirects and the WTForms `QuantityForm` validators (book.py:1-20, 48, 57-59, 106-113) are presentation and library plumbing. The route results are modelled only as the `Page` and `Verdict` values.
- Parsing the quantity with `int()` (book.py:55) is left out. `SetQuantity` takes the integer that `int()` would return. A non-numeric string would make `int()` raise, and that path is not modelled.
- The catalog sort orders (book.py:36-47) are left out. They are database `order_by` queries, and their tie-breaking is unspecified.
- Floating-point prices and `round(..., 2)` (book.py:28, 68, 70) are left out. Prices are integer cents, so rounding is the identity.
- Missing prices are left out: every book is assumed to have a price. The `price` column (book.py:28) is nullable, and a book with a NULL price makes `book.price * quantity` raise `TypeError` at book.py:68, so the basket page fails.
- The process-wide `shopping_basket` dictionary and its missing locking (book.py:15) are left out. The basket is a value passed into and out of each operation, and concurrent requests are not modelled.
- Missing form fields are left out; all five fields are modelled as strings. In the code, `request.form.get` returns `None` for a missing field. If all five are `None`, the condition at book.py:92 is false and the form is shown without error. Otherwise a `None` card number raises `AttributeError` at line 93, and a `None` month, year or cvv raises it at line 97, 98 or 99. A `None` cardholder name never raises.
- Non-ASCII digits are left out. Python's `isdigit` also accepts other Unicode digits, and `int()` rejects some of those; only `'0'..'9'` count as digits here.
- The single-book page's lookup of a missing book (book.py:53, 57-59) only affects rendering and is left out.
- ShoppingBasket.ViewBasket: does not state the order of the lines. Python lists them in the dictionary's insertion order; a `map` has no order, so the model visits the entries in an arbitrary order and states only which lines appear.
