# projeto-pdv core, modelled in Dafny

The model covers the logic of a small point-of-sale application: a sales
endpoint (`POST /pdv`) on a document store, plus the React pages that feed it.

- **`PontoDeVenda`** (`ponto_de_venda.dfy`) models the sale handler. It
  validates the request body, looks up the customer and then each product in
  list order, builds the receipt (`cupom`) with defaulted fields, rejects
  insufficient payment, computes the change (`troco`) and persists exactly one
  receipt in the `Vendas` log.
  - The store is an immutable value: customer and product maps plus the
    sequence of persisted receipts.
  - Money is integer cents.
  - Every document read is recorded, so "nothing is read before validation"
    and "lookups stop at the first missing product" can be stated.
- **`Cpf`** (`cpf.dfy`) models `validateCPF` and the `formatCPF` input mask of
  the customer form.
  - The JavaScript check-digit formula `(sum * 10) % 11` is proved to agree
    with the Receita Federal's own rule for CPF check digits. Under that rule
    a check digit is 11 minus the weighted sum modulo 11, and 0 when the
    remainder is below 2.
  - The mask's regular expressions are modelled as leftmost-match searches.
- **`PriceInput`** (`price_input.dfy`) models `handlePriceChange`, which
  sanitises the price field of the product form, and the positive-price check
  of `handleSubmit`.
- **`JsNumber`** (`js_number.dfy`) models JavaScript's `parseFloat`, which
  both forms apply to text fields.
  - The number read is kept exactly: a sign, a mantissa and a power of ten.
    An optional sign, digits around an optional dot and an optional
    `e`/`E` exponent are read.
  - The price field holds either the sanitiser's output (digits and one dot
    at most) or the `toFixed(2)` text loaded for editing, such as "-5.00".
    On a sanitised price it reduces to the unsigned decimal literal.
- **`PointOfSale`** (`point_of_sale.dfy`) models the cart of the point-of-sale
  page.
  - Checking or unchecking a product is an append or a filter on the list of
    selected ids.
  - It also covers the client-side total, the enabled state of the submit
    button, `resetForm`, and what `handleSale` does with the answer.
  - The amount field is an `<input type="number">`, so it can hold a minus
    sign or an exponent ("-5", "1e3"). The posted `parseFloat(valorPago)` is
    converted to whole cents by rounding down.
  - Cross-module lemmas tie the page to the handler. The shown total is the
    charged total, and the button's state matches the server's
    required-fields check.
- **`NavBar`** (`nav_bar.dfy`) models `classNames` and the `current` flags of
  the three menu entries.
- **`Strings`** (`strings.dfy`) and **`Wrappers`** (`wrappers.dfy`) are shared
  helpers.
  - `Strings` models JavaScript's `filter`, `replace` with a character class,
    `split`/`join` on one separator, `includes`, and digit runs.
  - `Wrappers` provides `Option` and `Result`.

JavaScript's falsy values are modelled explicitly. A string field that is
absent is `None`. An absent field and the empty string are both falsy, so
`x || default` takes the default for both.

## Model

| member | source | states |
|---|---|---|
| PontoDeVenda.ProcessSale | routes/ponto_de_venda.js:9-77 | Failure leaves the store as it was. Success holds exactly when the request is complete, the customer exists, every product exists and the payment covers the total. The reads are the customer first, then the products in list order up to the first missing one. When the customer and every product exist, all of them are read, whether or not the payment covers the total. On success, exactly one receipt is appended to the log and the new id is its position. The receipt holds the customer's `nome`/`cpf` snapshot and one line per requested id in order, duplicates included. `valor_total` is the summed price and `troco = valorPago - total >= 0`. |
| PontoDeVenda.Resolve | routes/ponto_de_venda.js:32-51 | The product lookup loop succeeds exactly when every id is in the catalog. Success gives one line per id, in order. Failure gives the index of the first missing id. |
| PontoDeVenda.LookupProducts | routes/ponto_de_venda.js:29-51 | The `for` loop over `produtos` agrees with `Resolve`. When every id is found it returns the lines and the running total (the sum of the lines' prices) after one read per id. Otherwise it stops at the first missing id, after the reads up to and including it. |
| PontoDeVenda.ProductLookupsConcat | routes/ponto_de_venda.js:31-34 | The reads the loop makes for a list of ids are the reads for any prefix followed by the reads for the rest: one product document per listed id, in list order, duplicates included. |
| PontoDeVenda.SumItemsIsPriceTotal | routes/ponto_de_venda.js:29-47 | The running `valorTotal` accumulated by the loop equals the total price of the listed products, with an absent price counting 0. |
| PontoDeVenda.HandlePdv | routes/ponto_de_venda.js:9-77 | The imperative handler (early returns, then `LookupProducts` for the loop, then the payment check and the write) computes exactly what `ProcessSale` specifies. |
| PontoDeVenda.IncompleteRequestRejected | routes/ponto_de_venda.js:12-13 | Missing or empty `produtos`, a falsy `clienteId` or a null `valorPago` is answered 400, with no read and no write. |
| PontoDeVenda.RequiredFieldsExact | routes/ponto_de_venda.js:12-13 | The required-fields answer is given exactly when `ValidRequest` fails (`!produtos \|\| produtos.length === 0 \|\| !clienteId \|\| valorPago == null`), and to no complete request. |
| PontoDeVenda.ItemFields | routes/ponto_de_venda.js:40-44 | A receipt line carries the product's `Nome` and `Descricao` when they are non-empty and the placeholders otherwise, so no line shows an empty text. Its unit price is `Preco`, or 0 when that is absent. |
| PontoDeVenda.UnknownCustomerRejected | routes/ponto_de_venda.js:17-23 | An unknown customer is answered 404 after the single customer read. No product is read and nothing is written. |
| PontoDeVenda.FirstMissingProductReported | routes/ponto_de_venda.js:32-50 | With missing products, the answer is 404 naming the first missing id in list order, after exactly the reads up to it. The sales log is unchanged. |
| PontoDeVenda.InsufficientPaymentRejected | routes/ponto_de_venda.js:31-56 | Paying strictly less than the total is answered 400 and nothing is written. The answer comes only after the customer and every listed product have been read, in list order. |
| PontoDeVenda.ExactPaymentAccepted | routes/ponto_de_venda.js:54-59 | Paying exactly the total is accepted with status 201 and zero change. |
| PontoDeVenda.SuccessfulSaleReads | routes/ponto_de_venda.js:17-34 | A successful sale reads the customer once and then every listed product once, in order. |
| PontoDeVenda.AbsentFieldsDefaulted | routes/ponto_de_venda.js:41-47 | In an accepted sale, a product whose `Nome` or `Descricao` is absent or the empty string gets the placeholder text on its line. A product without `Preco` contributes 0 both to its line and to the total. |
| PontoDeVenda.PriceTotalConcat | routes/ponto_de_venda.js:32-47 | The total is additive over the id list, so a repeated id is charged once per occurrence. |
| PontoDeVenda.ReceiptExample | routes/ponto_de_venda.js:62-77 | Worked example: prices 2.50 and 15.00 with 20.00 paid gives a 201 receipt with total 17.50 and change 2.50, appended to the log. |
| PontoDeVenda.MissingProductExample | routes/ponto_de_venda.js:48-50 | Worked example: a request naming an unknown product gets 404 naming it, and the log stays empty. |
| Cpf.CheckDigit | react/src/components/pages/Customers/CustomerForm.jsx:55-56 | The computed check digit is always a single digit, 0..9. |
| Cpf.CheckDigitIsReceitaRule | react/src/components/pages/Customers/CustomerForm.jsx:55-56 | `(sum * 10) % 11`, with 10 read as 0, equals the Receita rule (11 - sum mod 11, or 0 when that remainder is below 2). The branch for a remainder of 11 is dead. |
| Cpf.WeightedSumIsReceitaSum | react/src/components/pages/Customers/CustomerForm.jsx:52-61 | Both accumulation loops compute the Receita weighted sum of the first 9 and first 10 digits, with weights 10..2 and 11..2. |
| Cpf.ValidateCpf | react/src/components/pages/Customers/CustomerForm.jsx:44-46 | Any input that does not have exactly 11 digits once the non-digits are dropped is rejected. |
| Cpf.ValidateCpfIsReceitaRule | react/src/components/pages/Customers/CustomerForm.jsx:44-66 | `validateCPF` accepts exactly the inputs whose digits form an 11-digit CPF whose two check digits follow the Receita rule. |
| Cpf.ValidateCpfIgnoresNonDigits | react/src/components/pages/Customers/CustomerForm.jsx:45 | Only the digits of the input matter: validating the input equals validating its digits. |
| Cpf.ValidateDigitString | react/src/components/pages/Customers/CustomerForm.jsx:45-66 | On a string of digits, acceptance is exactly: length 11, the tenth digit equals the first check digit and the eleventh equals the second. |
| Cpf.Complete | react/src/components/pages/Customers/CustomerForm.jsx:52-64 | Appending the two check digits to a nine-digit body gives an 11-digit string that starts with the body. |
| Cpf.CompleteIsValid | react/src/components/pages/Customers/CustomerForm.jsx:44-66 | Every nine-digit body, completed with its check digits, is accepted. |
| Cpf.ValidCpfIsCompletion | react/src/components/pages/Customers/CustomerForm.jsx:57-65 | An accepted CPF is the completion of its first nine digits, so the check digits are determined by the body. |
| Cpf.RepeatedDigitsAccepted | react/src/components/pages/Customers/CustomerForm.jsx:44-66 | Repeated-digit strings such as 11111111111 are not singled out: every one of the ten is accepted. |
| Cpf.KnownCpfValid | react/src/components/pages/Customers/CustomerForm.jsx:44-66 | 52998224725 is accepted. |
| Cpf.KnownCpfInvalid | react/src/components/pages/Customers/CustomerForm.jsx:63-65 | 52998224726, the same CPF with the last digit changed, is rejected. |
| Cpf.FourDigitRun | react/src/components/pages/Customers/CustomerForm.jsx:34-35 | `/(\d{3})(\d)/` is located at the leftmost index where four digits start. The result is None only when no such index exists. |
| Cpf.TailRun | react/src/components/pages/Customers/CustomerForm.jsx:36 | `/(\d{3})(\d{1,2})$/` is located at the leftmost index from which four or five digits run to the end. The result is None only when no such index exists. |
| Cpf.FormatCpf | react/src/components/pages/Customers/CustomerForm.jsx:31-38 | The mask is at most 14 characters long and contains only digits, '.' and '-'. |
| Cpf.MaskCharsOnly | react/src/components/pages/Customers/CustomerForm.jsx:32-36 | Before the cut to 14 characters, the three replacements on a digit string produce only digits, '.' and '-'. |
| Cpf.DotStep | react/src/components/pages/Customers/CustomerForm.jsx:34-35 | Each dot replacement keeps the digits in order and adds at most one character. |
| Cpf.DashStep | react/src/components/pages/Customers/CustomerForm.jsx:36 | The dash replacement keeps the digits in order and adds at most one character. |
| Cpf.FormatCpfKeepsDigits | react/src/components/pages/Customers/CustomerForm.jsx:32-37 | For inputs with at most 11 digits, the digits of the mask are the digits of the input. |
| Cpf.FormatCpfPreservesValidity | react/src/components/pages/Customers/CustomerForm.jsx:31-38 | For inputs with at most 11 digits, masking does not change whether `validateCPF` accepts. |
| Cpf.FormatCpfElevenDigits | react/src/components/pages/Customers/CustomerForm.jsx:32-37 | An input with exactly 11 digits comes out in the shape ddd.ddd.ddd-dd. |
| Cpf.KnownCpfMasked | react/src/components/pages/Customers/CustomerForm.jsx:31-38 | 52998224725 masks to 529.982.247-25, which is still accepted. |
| Strings.Keep | react/src/components/pages/Products/ProductForm.jsx:33 | A filter returns no more elements than it received, and each one satisfies the predicate. |
| Strings.JoinSplit | react/src/components/pages/Products/ProductForm.jsx:36-46 | Joining the pieces of a `split` on a separator gives the string back. |
| Strings.SplitJoin | react/src/components/NavBar.jsx:7 | Splitting the join of separator-free pieces gives the pieces back. |
| Strings.ContainsOccurrence | react/src/components/NavBar.jsx:17 | `includes` holds exactly when the needle occurs at some index of the string. |
| PriceInput.PriceChangeCases | react/src/components/pages/Products/ProductForm.jsx:33-46 | With more than one '.' after cleaning, the stored price is left unchanged. Without a dot, the cleaned input is stored. With one dot, the integer part is kept verbatim and the part after the dot is cut to two characters. |
| PriceInput.CleanChars | react/src/components/pages/Products/ProductForm.jsx:33 | The cleaned input contains only digits and '.'. |
| PriceInput.Clean | react/src/components/pages/Products/ProductForm.jsx:33 | The replacement leaves only digits and dots and never lengthens the input. It leaves the input unchanged exactly when the input already consists of digits and dots only. |
| PriceInput.PriceChangeResult | react/src/components/pages/Products/ProductForm.jsx:31-47 | Whatever is typed, `handlePriceChange` either keeps the previous state (the early `return`) or stores a well-formed price: digits, at most one dot, at most two decimals. |
| PriceInput.PriceChangeKeepsWellFormed | react/src/components/pages/Products/ProductForm.jsx:31-47 | Starting from a well-formed price, every keystroke leaves a well-formed price: only digits and '.', at most one dot, at most two decimals. |
| PriceInput.WellFormedIsFixedPoint | react/src/components/pages/Products/ProductForm.jsx:33-46 | A well-formed input is stored exactly as typed. |
| PriceInput.PriceChangeIdempotent | react/src/components/pages/Products/ProductForm.jsx:31-47 | From a well-formed current price, feeding the sanitiser's result back into it changes nothing. The precondition is needed: a price loaded for editing such as "-5.00" is kept by an input with two dots and then turned into "5.00". |
| PriceInput.CleanInputKept | react/src/components/pages/Products/ProductForm.jsx:33-46 | When the cleaned input has at most one dot and at most two decimals, the result is the cleaned input. |
| JsNumber.LeadingDigits | react/src/components/pages/Products/ProductForm.jsx:55 | The digit run `parseFloat` reads is the longest prefix made of digits. |
| JsNumber.Value | react/src/components/pages/PDV/PointOfSale.jsx:44 | The exact value of a number read is below zero exactly when it carries a minus sign and a non-zero mantissa, and zero exactly when the mantissa is zero. |
| JsNumber.ParseFloat | react/src/components/pages/PDV/PointOfSale.jsx:44 | `parseFloat` gives a negative number only for text starting with '-', and reads a number only from text holding a digit. Otherwise the result is NaN. |
| JsNumber.ParseFloatNoSign | react/src/components/pages/PDV/PointOfSale.jsx:44 | Without a sign in front, the number read is the unsigned literal with its exponent. |
| JsNumber.ParseFloatUnsigned | react/src/components/pages/Products/ProductForm.jsx:55 | On text with no sign in front and no exponent letter, `parseFloat` reads the decimal literal, with its decimals as a negative power of ten. |
| JsNumber.ParseFloatSign | react/src/components/pages/PDV/PointOfSale.jsx:44 | A leading '-' negates the number that follows, including its value, and a leading '+' changes nothing. |
| JsNumber.Negate | react/src/components/pages/PDV/PointOfSale.jsx:44 | Setting the minus sign of a number without one negates its value. |
| JsNumber.ExponentExample | react/src/components/pages/PDV/PointOfSale.jsx:44 | "1e3" reads as 1 times 10^3. |
| JsNumber.MinusFiveExample | react/src/components/pages/PDV/PointOfSale.jsx:44 | "-5" reads as minus five. |
| JsNumber.ScientificExample | react/src/components/pages/PDV/PointOfSale.jsx:44 | "12.5E-1" reads as 125 times 10^-2: a capital E and a negative exponent. |
| JsNumber.BareEExample | react/src/components/pages/PDV/PointOfSale.jsx:44 | "2e" reads as two: an `e` without digits after it is not part of the number. |
| JsNumber.MinusHalfExample | react/src/components/pages/PDV/PointOfSale.jsx:44 | "-.5" reads as minus one half. |
| JsNumber.NoNumberExample | react/src/components/pages/PDV/PointOfSale.jsx:44 | "e3" and "-" hold no digit to read and give NaN. |
| PriceInput.ParseWellFormed | react/src/components/pages/Products/ProductForm.jsx:55 | The decimal literal read from a well-formed price is all of its digits, those after the dot counting as decimals. With no digit at all nothing is read. |
| PriceInput.ParseFloatWellFormed | react/src/components/pages/Products/ProductForm.jsx:55 | `parseFloat` of a well-formed price is the non-negative number made of all its digits, scaled by its decimals, or NaN when it has no digit. |
| PriceInput.SubmitPrice | react/src/components/pages/Products/ProductForm.jsx:55-60 | The price check passes exactly when `parseFloat` reads a number whose value is above zero, and the number saved is the one read. NaN, zero and negative values are refused. |
| PriceInput.SubmitWellFormed | react/src/components/pages/Products/ProductForm.jsx:55-60 | A well-formed price passes the submit check exactly when some digit is non-zero, and then it has at most two decimals. Otherwise the check fails before any save. |
| PriceInput.SubmitExamples | react/src/components/pages/Products/ProductForm.jsx:55-60 | "", "." and "0.00" are refused, and ".5" is accepted as 0.5. |
| PriceInput.ZeroRead | react/src/components/pages/Products/ProductForm.jsx:55 | "0.00" reads as zero with two decimals. |
| PointOfSale.Find | react/src/components/pages/PDV/PointOfSale.jsx:62 | `find` returns a listed product with the requested id, or nothing when no entry has that id. |
| PointOfSale.FindIsFirst | react/src/components/pages/PDV/PointOfSale.jsx:62 | `find` returns the first entry with the id, in listing order. |
| PointOfSale.CalculateTotal | react/src/components/pages/PDV/PointOfSale.jsx:60-65 | The `reduce` loop yields the sum of the prices of the selected ids found in the listing. Ids not listed add 0, and an empty selection totals 0. |
| PointOfSale.SelectionTotalConcat | react/src/components/pages/PDV/PointOfSale.jsx:61-64 | The total of a selection is additive over any split of it. |
| PointOfSale.UnlistedAddsNothing | react/src/components/pages/PDV/PointOfSale.jsx:62-63 | Selecting an id the listing does not have leaves the total unchanged. |
| PointOfSale.Toggle | react/src/components/pages/PDV/PointOfSale.jsx:119-124 | After the click, the id is selected exactly when the box was checked. No other id changes its count. Checking appends one occurrence at the end and keeps the existing list as a prefix. |
| PointOfSale.RemoveCounts | react/src/components/pages/PDV/PointOfSale.jsx:123 | Unchecking removes every occurrence of the id and no other element. |
| PointOfSale.UncheckKeepsOrder | react/src/components/pages/PDV/PointOfSale.jsx:123 | Unchecking distributes over any split of the selection, so the others keep their relative order. |
| PointOfSale.UncheckAbsent | react/src/components/pages/PDV/PointOfSale.jsx:123 | Unchecking an id that is not selected changes nothing. |
| PointOfSale.CheckThenUncheck | react/src/components/pages/PDV/PointOfSale.jsx:119-124 | Checking and then unchecking an id not already selected restores the original selection. |
| PointOfSale.CheckAddsPrice | react/src/components/pages/PDV/PointOfSale.jsx:119-121 | Checking a product raises the shown total by its price. |
| PointOfSale.UncheckSubtractsPrice | react/src/components/pages/PDV/PointOfSale.jsx:122-123 | Unchecking a product lowers the shown total by its price once per occurrence. |
| PointOfSale.ResetForm | react/src/components/pages/PDV/PointOfSale.jsx:54-58 | After the reset, the customer, the selection and the amount are empty, and the submit button is disabled. |
| PointOfSale.ToCents | react/src/components/pages/PDV/PointOfSale.jsx:44 | The amount in whole cents is negative exactly when the amount read is. |
| PointOfSale.ToCentsIsFloor | react/src/components/pages/PDV/PointOfSale.jsx:44 | The amount in cents is the floor of the exact value times 100: no more than it, and less than one cent below it. |
| PointOfSale.ToCentsComparison | react/src/components/pages/PDV/PointOfSale.jsx:44 | Rounding the amount down to whole cents never changes how it compares with a whole number of cents, so the server's `valorPago < valorTotal` decision is the same. |
| PointOfSale.BuildRequest | react/src/components/pages/PDV/PointOfSale.jsx:41-45 | The posted body carries the selected customer and the selected ids as typed. It carries an amount exactly when `parseFloat` reads a number (NaN becomes `null`), and that amount is the number read times a hundred, rounded down to whole cents: no more than the exact amount in cents and less than one cent below it. So it is negative exactly when the number read is. |
| PointOfSale.AmountExamples | react/src/components/pages/PDV/PointOfSale.jsx:41-45 | The number field can hold "1e3", posted as 1000.00, and "-5", posted as -5.00; 10.009 becomes 10.00. |
| PointOfSale.EnabledMatchesServerGuard | react/src/components/pages/PDV/PointOfSale.jsx:41-45 | The posted request passes the server's required-fields check exactly when the button is enabled (`Disabled`, line 162) and the typed amount reads as a number, signs and exponents included. |
| PointOfSale.ShownTotalIsCharged | react/src/components/pages/PDV/PointOfSale.jsx:60-65 | When the listing mirrors the store, the total the page shows is the total the server charges. |
| PointOfSale.HandleSale | react/src/components/pages/PDV/PointOfSale.jsx:38-52 | The page posts `BuildRequest` of its form, signed and exponent amounts included. On success the receipt is shown, the error cleared and the form reset. On failure the error is shown, and the form and the store are unchanged. |
| PointOfSale.ReceiptMatchesCart | react/src/components/pages/PDV/PointOfSale.jsx:38-58 | After a successful sale from the page, the receipt's total is the total the page showed. It has one line per selected id, and the form is empty. |
| NavBar.TruthyParts | react/src/components/NavBar.jsx:7 | `filter(Boolean)` keeps no more parts than it received, none of them empty. |
| NavBar.TruthyPartsConcat | react/src/components/NavBar.jsx:7 | Dropping the falsy arguments distributes over the argument list, which keeps them in order. |
| NavBar.TruthyPartsSingle | react/src/components/NavBar.jsx:7 | One argument contributes its string when truthy and nothing otherwise. |
| NavBar.ClassNames | react/src/components/NavBar.jsx:6-8 | `classNames` is the empty string exactly when no argument is truthy. |
| NavBar.ClassNamesSplit | react/src/components/NavBar.jsx:6-8 | With at least one truthy argument and no spaces inside them, splitting the result on ' ' gives the truthy arguments in order. |
| NavBar.ClassNamesConcat | react/src/components/NavBar.jsx:6-8 | For any arguments, spaces inside them included, the result for a longer argument list is the result for its first part and for the rest, with one space between them when both are non-empty. |
| NavBar.ClassNamesSingle | react/src/components/NavBar.jsx:6-8 | A single argument comes out verbatim when truthy and as "" otherwise. |
| NavBar.ClassNamesTwo | react/src/components/NavBar.jsx:110-113 | Two non-empty class strings, such as the icon's base classes and its colour, come out as the first, one space, the second. |
| NavBar.ClassNamesThree | react/src/components/NavBar.jsx:71-75 | Three non-empty class strings, such as the link's base, hover and current-state classes, come out joined by single spaces, each kept verbatim. |
| NavBar.Navigation | react/src/components/NavBar.jsx:14-36 | There are three entries with their names and hrefs in menu order. 'Clientes' and 'Produtos' are current exactly when the path contains their href (`includes`), and 'Ponto de Venda' exactly when the path is "/pdv" (`===`). |
| NavBar.PdvSubRouteNotCurrent | react/src/components/NavBar.jsx:31 | A longer path starting with "/pdv", such as "/pdv/", contains the href but does not make 'Ponto de Venda' current. |
| NavBar.PdvExcludesOthers | react/src/components/NavBar.jsx:17-31 | When 'Ponto de Venda' is current (the path is exactly /pdv), 'Clientes' and 'Produtos' are not. |
| NavBar.ListRoutes | react/src/components/NavBar.jsx:17-31 | On /clientes only 'Clientes' is current, and on /produtos only 'Produtos' is current. |
| NavBar.TwoCurrent | react/src/components/NavBar.jsx:17-25 | The flags are not exclusive: on /clientes/produtos both 'Clientes' and 'Produtos' are current. |
| NavBar.SubRouteIsCurrent | react/src/components/NavBar.jsx:17-25 | Any path with /clientes (or /produtos) inside it marks that entry current. |

## Left out

- Firestore access (`doc`, `getDoc`, `addDoc`) and the axios calls are foreign I/O. They are replaced by the immutable `Store` value, the sales log and the list of recorded reads.
- The generic 500 answer of routes/ponto_de_venda.js:79-81 is left out. In the source it answers any exception thrown by the store calls.
- PontoDeVenda.ProcessSale: every id is a plain key of the store. In the source, `doc(db, 'Produtos', id)` (routes/ponto_de_venda.js:33) throws on the empty id and on an id with an odd number of '/', so the answer is 500 where the model answers 404 for a missing product. An id with an even, non-zero number of '/' names a document in a sub-collection. The same holds for `clienteId` (line 17).
- PontoDeVenda.ProcessSale: a customer document without `nome` or `cpf` gets a receipt in the model, with the field absent from the snapshot. The source copies `cliente.nome` and `cliente.cpf` into the receipt it passes to `addDoc` (routes/ponto_de_venda.js:62-65 and 74). Firestore rejects an `undefined` field unless `ignoreUndefinedProperties` is set, and the catch at lines 79-81 turns the error into a 500 answer. That setting lives in db/firebase.js, which is not part of this model.
- PontoDeVenda.ProcessSale: Firestore gives a new `Vendas` document a random id (`addDoc`, line 74). The model uses the receipt's position in the log instead, which is also unique.
- NavBar.ClassNamesSplit: recovers the arguments by splitting the result only when no argument contains a space. The menu passes multi-class strings, and those calls are stated by `ClassNamesConcat`, `ClassNamesTwo` and `ClassNamesThree` instead.
- Error-message text is left out: a failure is modelled by its kind and HTTP status only.
- Concurrency between simultaneous sales is left out. The source coordinates none.
- Floating-point money is left out. The model keeps every amount in integer cents and sums them exactly. The source sums float prices with `+=` (routes/ponto_de_venda.js:47) and compares the float total with `valorPago` (line 54), so rounding can change the decision. For prices 0.10 and 0.20 and a payment of 0.30, the source's total is 0.30000000000000004 and it answers 400 "Valor pago insuficiente", while the model accepts with no change. The `toFixed(2)` roundings of lines 59 and 68-69 are likewise not modelled.
- PontoDeVenda.ProcessSale: `produtos` is a list of ids or absent. The source's behaviour on a non-array value, and on a `valorPago` that is not a number, is not modelled.
- JsNumber.ParseFloat: leading white space and `Infinity` are not read. Neither can appear in the fields it is applied to: an `<input type="number">` value is empty or a valid floating-point number, and the price field holds either the sanitiser's output (digits and dots only) or a `toFixed(2)` text such as "-5.00" loaded for editing (react/src/components/pages/Products/ProductForm.jsx:21). The number is kept exact, so double rounding and overflow (`1e400` is `Infinity` in JavaScript) are not modelled.
- PointOfSale.ToCents: rounds the amount typed on the page down to whole cents, while the source posts the float and the server rounds `valor_pago` and `troco` with `toFixed(2)` (routes/ponto_de_venda.js:59 and 69), to the nearest cent. `ToCentsComparison` shows that the accept/reject decision is unaffected. The stored `valor_pago` and `troco` can differ by one cent: for 10.009 the source stores 10.01 and the model 10.00, and the change differs by the same cent.
- PointOfSale.CatalogEntry: every listed product has a `Preco`. A product without one makes the listing's `Preco.toFixed(2)` (react/src/components/pages/PDV/PointOfSale.jsx:133) throw before any total is shown.
- React rendering, hooks (`useState`, `useEffect`), `window.print`, `console.error`, and the menu's hover state (`hoveredItem`) are left out.
- The loading of customers and products by the point-of-sale page is left out. The listing is a parameter.
- react/src/components/pages/Products/ProductList.jsx and react/src/components/pages/Customers/CustomerList.jsx are not part of this model. They only fetch, delete and render.
- react/src/main.jsx (route table), server.js (CORS and body-parser setup) and react/src/Layout.jsx (layout markup) are not part of this model. They hold no behaviour to state.
- The rest of the customer and product forms (loading for edit, saving, navigation) is left out, apart from the functions named above.
