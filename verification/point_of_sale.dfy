/** The point-of-sale page (react/src/components/pages/PDV/PointOfSale.jsx):
    the cart held as the ordered list of selected product ids, the total shown
    under it, the enabled state of the "Processar Venda" button, and what the
    page does with the answer of `POST /pdv`.

    React state is a plain `Form` value and every handler a function from the
    old value to the new one. The product listing the page fetched from
    `GET /produtos` is a parameter. The request the page posts is handed to
    the sale computation of the server, with the store as a parameter in
    place of the network. */
module PointOfSale {
  import opened Wrappers
  import opened Strings
  import JsNumber
  import PontoDeVenda

  type Cents = PontoDeVenda.Cents

  /** A product of the listing: its document id and its `Preco`. */
  datatype CatalogEntry = CatalogEntry(id: string, preco: Cents)

  /** The form state: chosen customer id (`""` for none), the selected
      product ids in click order, and the text typed as the amount paid. */
  datatype Form = Form(selectedCustomer: string, selectedProducts: seq<string>, valorPago: string)

  /** Some entry of the listing has this id. */
  predicate Listed(products: seq<CatalogEntry>, id: string) {
    exists i :: 0 <= i < |products| && products[i].id == id
  }

  /** `products.find(p => p.id === id)`. */
  function Find(products: seq<CatalogEntry>, id: string): (r: Option<CatalogEntry>)
    ensures r.Some? ==> r.value in products && r.value.id == id
    ensures r.None? ==> !Listed(products, id)
  {
    if |products| == 0 then None
    else if products[0].id == id then Some(products[0])
    else
      var r := Find(products[1..], id);
      assert r.None? ==> forall i :: 1 <= i < |products| ==> products[i] == products[1..][i - 1];
      r
  }

  /** `Find` returns the first entry with the id, in listing order. */
  lemma {:induction false} FindIsFirst(products: seq<CatalogEntry>, id: string, k: nat)
    requires k < |products| && products[k].id == id
    requires forall j :: 0 <= j < k ==> products[j].id != id
    ensures Find(products, id) == Some(products[k])
  {
    if k > 0 {
      FindIsFirst(products[1..], id, k - 1);
    }
  }

  /** What one selected id adds to the total: the price of the product found,
      or nothing when the listing has no such product. */
  function PriceOf(products: seq<CatalogEntry>, id: string): Cents {
    match Find(products, id)
    case Some(p) => p.preco
    case None => 0
  }

  /** The sum, over the selected ids, of what each one adds. */
  function SelectionTotal(products: seq<CatalogEntry>, selected: seq<string>): Cents {
    if |selected| == 0 then 0 else PriceOf(products, selected[0]) + SelectionTotal(products, selected[1..])
  }

  lemma {:induction false} SelectionTotalConcat(products: seq<CatalogEntry>, a: seq<string>, b: seq<string>)
    ensures SelectionTotal(products, a + b) == SelectionTotal(products, a) + SelectionTotal(products, b)
  {
    if |a| == 0 {
      assert a + b == b;
    } else {
      assert (a + b)[1..] == a[1..] + b;
      SelectionTotalConcat(products, a[1..], b);
    }
  }

  /** `calculateTotal`: the `reduce` over the selected ids, left to right. */
  method CalculateTotal(products: seq<CatalogEntry>, selected: seq<string>) returns (total: Cents)
    ensures total == SelectionTotal(products, selected)
    ensures |selected| == 0 ==> total == 0
  {
    total := 0;
    var i := 0;
    while i < |selected|
      invariant 0 <= i <= |selected|
      invariant total == SelectionTotal(products, selected[..i])
    {
      var product := Find(products, selected[i]);
      SelectionTotalConcat(products, selected[..i], [selected[i]]);
      assert selected[..i + 1] == selected[..i] + [selected[i]];
      total := total + (if product.Some? then product.value.preco else 0);
      i := i + 1;
    }
    assert selected[..i] == selected;
  }

  /** A selected id missing from the listing adds nothing to the total. */
  lemma UnlistedAddsNothing(products: seq<CatalogEntry>, selected: seq<string>, id: string)
    requires !Listed(products, id)
    ensures SelectionTotal(products, selected + [id]) == SelectionTotal(products, selected)
  {
    SelectionTotalConcat(products, selected, [id]);
    assert [id][1..] == [];
  }

  /** The `onChange` of a product's checkbox: checking appends the id at the
      end, unchecking drops every occurrence of it. */
  function Toggle(selected: seq<string>, id: string, checked: bool): (r: seq<string>)
    ensures (id in r) == checked
    ensures forall x :: x != id ==> multiset(r)[x] == multiset(selected)[x]
    ensures checked ==> multiset(r)[id] == multiset(selected)[id] + 1
    ensures checked ==> |r| == |selected| + 1 && r[..|selected|] == selected
  {
    if checked then
      assert (selected + [id])[..|selected|] == selected;
      selected + [id]
    else
      RemoveCounts(selected, id);
      Keep(selected, x => x != id)
  }

  /** Dropping an id removes all of its occurrences and no other element. */
  lemma {:induction false} RemoveCounts(s: seq<string>, id: string)
    ensures multiset(Keep(s, x => x != id))[id] == 0
    ensures forall x :: x != id ==> multiset(Keep(s, x => x != id))[x] == multiset(s)[x]
  {
    if |s| > 0 {
      RemoveCounts(s[1..], id);
      assert s == [s[0]] + s[1..];
    }
  }

  /** Unchecking keeps the other ids in their relative order: it distributes
      over any split of the selection. */
  lemma UncheckKeepsOrder(a: seq<string>, b: seq<string>, id: string)
    ensures Toggle(a + b, id, false) == Toggle(a, id, false) + Toggle(b, id, false)
  {
    KeepConcat(a, b, x => x != id);
  }

  /** Unchecking an id that is not selected changes nothing. */
  lemma UncheckAbsent(s: seq<string>, id: string)
    requires id !in s
    ensures Toggle(s, id, false) == s
  {
    KeepAllKept(s, x => x != id);
  }

  /** Checking a product and unchecking it again restores the selection, when
      it was not selected before. */
  lemma CheckThenUncheck(s: seq<string>, id: string)
    requires id !in s
    ensures Toggle(Toggle(s, id, true), id, false) == s
  {
    UncheckKeepsOrder(s, [id], id);
    UncheckAbsent(s, id);
    KeepSingle(id, x => x != id);
  }

  /** Checking a product raises the total by its price. */
  lemma CheckAddsPrice(products: seq<CatalogEntry>, s: seq<string>, id: string)
    ensures SelectionTotal(products, Toggle(s, id, true)) == SelectionTotal(products, s) + PriceOf(products, id)
  {
    SelectionTotalConcat(products, s, [id]);
    assert [id][1..] == [];
  }

  /** Unchecking a product lowers the total by its price once per occurrence. */
  lemma {:induction false} UncheckSubtractsPrice(products: seq<CatalogEntry>, s: seq<string>, id: string)
    ensures SelectionTotal(products, Toggle(s, id, false))
         == SelectionTotal(products, s) - multiset(s)[id] * PriceOf(products, id)
  {
    if |s| > 0 {
      UncheckSubtractsPrice(products, s[1..], id);
      assert s == [s[0]] + s[1..];
      UncheckKeepsOrder([s[0]], s[1..], id);
      SelectionTotalConcat(products, Toggle([s[0]], id, false), Toggle(s[1..], id, false));
      UncheckOne(products, s[0], id);
      CountedPrice(s, id, PriceOf(products, id));
    }
  }

  lemma UncheckOne(products: seq<CatalogEntry>, head: string, id: string)
    ensures SelectionTotal(products, Toggle([head], id, false)) == if head == id then 0 else PriceOf(products, head)
  {
    KeepSingle(head, x => x != id);
    assert [head][1..] == [];
  }

  lemma CountedPrice(s: seq<string>, id: string, price: int)
    requires |s| > 0
    ensures multiset(s)[id] * price == (if s[0] == id then price else 0) + multiset(s[1..])[id] * price
  {
    assert s == [s[0]] + s[1..];
    var c := multiset(s[1..])[id];
    assert multiset(s)[id] == (if s[0] == id then 1 else 0) + c;
    if s[0] == id {
      assert (c + 1) * price == c * price + price;
    }
  }

  /** The `disabled` attribute of the submit button. */
  predicate Disabled(f: Form) {
    f.selectedCustomer == "" || |f.selectedProducts| == 0 || f.valorPago == ""
  }

  /** `resetForm`: after a sale the form is empty again. */
  function ResetForm(f: Form): (r: Form)
    ensures r.selectedCustomer == "" && r.selectedProducts == [] && r.valorPago == ""
    ensures Disabled(r)
  {
    Form("", [], "")
  }

  /** An amount `parseFloat` read, in whole cents: the value times a hundred,
      rounded down to a whole number. */
  function ToCents(n: JsNumber.Number): (c: Cents)
    ensures c < 0 <==> JsNumber.Value(n) < 0.0
  {
    (JsNumber.Value(n) * 100.0).Floor
  }

  /** `ToCents` is the floor of the amount in cents: no more than the exact
      value times a hundred, and less than one cent below it. */
  lemma ToCentsIsFloor(n: JsNumber.Number)
    ensures ToCents(n) as real <= JsNumber.Value(n) * 100.0 < ToCents(n) as real + 1.0
  {
  }

  /** Rounding down to whole cents never changes how an amount compares with a
      whole number of cents: the amount covers t cents exactly when
      `ToCents` does. */
  lemma ToCentsComparison(n: JsNumber.Number, t: int)
    ensures ToCents(n) >= t <==> JsNumber.Value(n) * 100.0 >= t as real
  {
    ToCentsIsFloor(n);
  }

  /** The body the page posts: `valorPago: parseFloat(valorPago)`, where NaN
      is sent as JSON `null`, so the server sees no amount. */
  function BuildRequest(f: Form): (r: PontoDeVenda.Request)
    ensures r.produtos == Some(f.selectedProducts) && r.clienteId == Some(f.selectedCustomer)
    ensures r.valorPago.Some? <==> JsNumber.ParseFloat(f.valorPago).Some?
    ensures r.valorPago.Some? ==> (r.valorPago.value < 0 <==> JsNumber.Value(JsNumber.ParseFloat(f.valorPago).value) < 0.0)
    ensures r.valorPago.Some? ==>
      r.valorPago.value as real <= JsNumber.Value(JsNumber.ParseFloat(f.valorPago).value) * 100.0 < r.valorPago.value as real + 1.0
  {
    var pago := JsNumber.ParseFloat(f.valorPago);
    var amount := if pago.Some? then ToCentsIsFloor(pago.value); Some(ToCents(pago.value)) else None;
    PontoDeVenda.Request(Some(f.selectedProducts), Some(f.selectedCustomer), amount)
  }

  /** What the amount field can hold beside plain decimals: an exponent, a
      minus sign, and a fraction of a cent, which is dropped. */
  lemma AmountExamples(c: string, ids: seq<string>, thousand: string, minusFive: string)
    requires thousand == "1e3" && minusFive == "-5"
    ensures BuildRequest(Form(c, ids, thousand)).valorPago == Some(100000)
    ensures BuildRequest(Form(c, ids, minusFive)).valorPago == Some(-500)
    ensures ToCents(JsNumber.Number(false, 10009, -3)) == 1000
  {
    JsNumber.ExponentExample(thousand);
    JsNumber.MinusFiveExample(minusFive);
    ThousandCents();
    MinusFiveCents();
    SubCentDropped();
  }

  lemma ThousandCents()
    ensures ToCents(JsNumber.Number(false, 1, 3)) == 100000
  {
    assert JsNumber.Pow10(3) == 1000;
    assert JsNumber.Value(JsNumber.Number(false, 1, 3)) == 1000.0;
  }

  lemma MinusFiveCents()
    ensures ToCents(JsNumber.Number(true, 5, 0)) == -500
  {
    assert JsNumber.Value(JsNumber.Number(true, 5, 0)) == -5.0;
  }

  lemma SubCentDropped()
    ensures ToCents(JsNumber.Number(false, 10009, -3)) == 1000
  {
    assert JsNumber.Pow10(3) == 1000;
    assert JsNumber.Value(JsNumber.Number(false, 10009, -3)) == 10.009;
  }

  /** The request passes the server's required-fields check exactly when the
      button is enabled and the amount typed reads as a number. */
  lemma EnabledMatchesServerGuard(f: Form)
    ensures PontoDeVenda.ValidRequest(BuildRequest(f)) <==> !Disabled(f) && JsNumber.ParseFloat(f.valorPago).Some?
  {
    if f.valorPago == "" {
      assert JsNumber.LeadingDigits(f.valorPago) == "";
    }
  }

  /** The listing shows every product of the store with the store's price. */
  predicate Mirrors(products: seq<CatalogEntry>, catalog: map<string, PontoDeVenda.Produto>) {
    && (forall i :: 0 <= i < |products| ==>
          products[i].id in catalog && catalog[products[i].id].preco == Some(products[i].preco))
    && (forall id :: id in catalog ==> Listed(products, id))
  }

  /** With a listing that mirrors the store, the total the page shows is the
      total the server charges. */
  lemma {:induction false} ShownTotalIsCharged(products: seq<CatalogEntry>, catalog: map<string, PontoDeVenda.Produto>, selected: seq<string>)
    requires Mirrors(products, catalog)
    requires PontoDeVenda.AllKnown(catalog, selected)
    ensures SelectionTotal(products, selected) == PontoDeVenda.PriceTotal(catalog, selected)
  {
    if |selected| > 0 {
      ShownTotalIsCharged(products, catalog, selected[1..]);
      var id := selected[0];
      assert id in catalog;
      var p := Find(products, id);
      assert p.Some?;
      assert catalog[id].preco == Some(p.value.preco);
    }
  }

  /** What the page shows: the form, the last receipt and the last error. */
  datatype Page = Page(form: Form, receipt: Option<PontoDeVenda.Venda>, error: Option<PontoDeVenda.SaleError>)

  /** `handleSale`: post the form and take in the answer. On success the
      receipt is shown and the form reset; on failure the error is shown and
      the form kept, so the user can correct it. */
  function HandleSale(page: Page, store: PontoDeVenda.Store): (r: (Page, PontoDeVenda.Store))
    ensures var reply := PontoDeVenda.ProcessSale(store, BuildRequest(page.form));
      && r.1 == reply.store
      && (reply.result.Success? ==>
            r.0 == Page(ResetForm(page.form), Some(reply.result.value), None))
      && (reply.result.Failure? ==>
            r.0 == page.(error := Some(reply.result.error)) && r.1 == store)
  {
    var reply := PontoDeVenda.ProcessSale(store, BuildRequest(page.form));
    match reply.result
    case Success(venda) => (Page(ResetForm(page.form), Some(venda), None), reply.store)
    case Failure(e) => (page.(error := Some(e)), reply.store)
  }

  /** A successful sale from the page charges the total the page showed, and
      its receipt lists the selected products in the order they were checked. */
  lemma ReceiptMatchesCart(page: Page, store: PontoDeVenda.Store, products: seq<CatalogEntry>)
    requires Mirrors(products, store.produtos)
    requires HandleSale(page, store).0.receipt.Some? && HandleSale(page, store).0.error.None?
    ensures var cupom := HandleSale(page, store).0.receipt.value.cupom;
      && cupom.valorTotal == SelectionTotal(products, page.form.selectedProducts)
      && |cupom.itens| == |page.form.selectedProducts|
      && HandleSale(page, store).0.form == Form("", [], "")
  {
    var req := BuildRequest(page.form);
    var reply := PontoDeVenda.ProcessSale(store, req);
    assert reply.result.Success?;
    ShownTotalIsCharged(products, store.produtos, page.form.selectedProducts);
  }
}
