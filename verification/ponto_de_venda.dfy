/** The sale endpoint `POST /pdv` (routes/ponto_de_venda.js): it validates the
    request, looks the customer and then each product up in the document store,
    builds the receipt (`cupom`), rejects insufficient payment, computes the
    change (`troco`) and persists the receipt in the `Vendas` collection.

    The document store is an immutable value: two maps for the `Clientes` and
    `Produtos` collections and the sequence of persisted receipts. Money is
    integer cents, so the source's `toFixed(2)` rounding is the identity. The
    store-assigned identifier of a new sale is its position in the sales log.
    Every document read the handler performs is recorded, in order, in the
    reply, so that "no read happens" and "lookups happen in list order" can be
    stated. */
module PontoDeVenda {
  import opened Wrappers

  /** An amount of money in cents. */
  type Cents = int

  /** Placeholders the receipt uses for a product without a name or description. */
  const NomePadrao: string := "Nome não disponível"
  const DescricaoPadrao: string := "Descrição não disponível"

  /** A customer document; `outros` stands for any other fields it carries. */
  datatype Cliente = Cliente(nome: Option<string>, cpf: Option<string>, outros: map<string, string>)

  /** A product document; any field may be absent. */
  datatype Produto = Produto(nome: Option<string>, descricao: Option<string>, preco: Option<Cents>)

  /** The copy of the customer embedded in a receipt: name and tax id only. */
  datatype ClienteSnapshot = ClienteSnapshot(nome: Option<string>, cpf: Option<string>)

  /** One line of a receipt. */
  datatype Item = Item(nome: string, descricao: string, valorUnitario: Cents)

  /** A receipt (`cupom fiscal`). */
  datatype Cupom = Cupom(
    cliente: ClienteSnapshot,
    itens: seq<Item>,
    valorTotal: Cents,
    valorPago: Cents,
    troco: Cents)

  /** The response body of a successful sale: the receipt plus the id of its record. */
  datatype Venda = Venda(cupom: Cupom, id: nat)

  datatype Store = Store(
    clientes: map<string, Cliente>,
    produtos: map<string, Produto>,
    vendas: seq<Cupom>)

  /** The request body; an absent field is `None`. */
  datatype Request = Request(
    produtos: Option<seq<string>>,
    clienteId: Option<string>,
    valorPago: Option<Cents>)

  /** The ways a sale fails; the 500 path (a store exception) is not modelled. */
  datatype SaleError =
    | CamposObrigatorios
    | ClienteNaoEncontrado
    | ProdutoNaoEncontrado(id: string)
    | ValorInsuficiente

  /** A document read: `getDoc` on the `Clientes` or the `Produtos` collection. */
  datatype Lookup = ClienteLookup(id: string) | ProdutoLookup(id: string)

  /** What the handler answers, the store after it, and the lookups it made. */
  datatype Reply = Reply(result: Result<Venda, SaleError>, store: Store, lookups: seq<Lookup>)

  /** The HTTP status of each outcome. */
  function Status(result: Result<Venda, SaleError>): nat {
    match result
    case Success(_) => 201
    case Failure(CamposObrigatorios) => 400
    case Failure(ClienteNaoEncontrado) => 404
    case Failure(ProdutoNaoEncontrado(_)) => 404
    case Failure(ValorInsuficiente) => 400
  }

  /** JavaScript's `field || default` on an optional string: absent and empty are falsy. */
  function OrDefault(field: Option<string>, default: string): string {
    if field.Some? && field.value != "" then field.value else default
  }

  /** The receipt line built from a product document. */
  function ItemOf(p: Produto): Item {
    Item(OrDefault(p.nome, NomePadrao), OrDefault(p.descricao, DescricaoPadrao), p.preco.GetOr(0))
  }

  /** A receipt line shows the product's own name and description when they
      are non-empty and the placeholders otherwise, so it never shows an empty
      text; an absent price counts 0. */
  lemma ItemFields(p: Produto)
    ensures ItemOf(p).nome != "" && ItemOf(p).descricao != ""
    ensures ItemOf(p).nome == NomePadrao || Some(ItemOf(p).nome) == p.nome
    ensures ItemOf(p).descricao == DescricaoPadrao || Some(ItemOf(p).descricao) == p.descricao
    ensures p.nome.Some? && p.nome.value != "" ==> ItemOf(p).nome == p.nome.value
    ensures p.descricao.Some? && p.descricao.value != "" ==> ItemOf(p).descricao == p.descricao.value
    ensures ItemOf(p).valorUnitario == (if p.preco.Some? then p.preco.value else 0)
  {
    assert NomePadrao[0] == 'N' && DescricaoPadrao[0] == 'D';
  }

  function Snapshot(c: Cliente): ClienteSnapshot {
    ClienteSnapshot(c.nome, c.cpf)
  }

  /** The guard at the top of the handler: a non-empty product list, a truthy
      customer id and a present payment. */
  predicate ValidRequest(req: Request) {
    && req.produtos.Some? && |req.produtos.value| > 0
    && req.clienteId.Some? && req.clienteId.value != ""
    && req.valorPago.Some?
  }

  predicate AllKnown(catalog: map<string, Produto>, ids: seq<string>) {
    forall i :: 0 <= i < |ids| ==> ids[i] in catalog
  }

  /** `ids[k]` is the first product id, in list order, missing from the catalog. */
  predicate IsFirstUnknown(catalog: map<string, Produto>, ids: seq<string>, k: int) {
    && 0 <= k < |ids|
    && ids[k] !in catalog
    && forall j :: 0 <= j < k ==> ids[j] in catalog
  }

  /** The sum of the prices of the listed products, an absent price counting 0. */
  function PriceTotal(catalog: map<string, Produto>, ids: seq<string>): Cents
    requires AllKnown(catalog, ids)
  {
    if |ids| == 0 then 0 else catalog[ids[0]].preco.GetOr(0) + PriceTotal(catalog, ids[1..])
  }

  /** The sum of the unit prices of receipt lines, accumulated left to right. */
  function SumItems(items: seq<Item>): Cents {
    if |items| == 0 then 0 else SumItems(items[..|items| - 1]) + items[|items| - 1].valorUnitario
  }

  /** The lookups the lookup loop makes for `ids`, one per entry, duplicates included. */
  function ProductLookups(ids: seq<string>): (lookups: seq<Lookup>)
    ensures |lookups| == |ids|
    ensures forall i :: 0 <= i < |ids| ==> lookups[i] == ProdutoLookup(ids[i])
  {
    seq(|ids|, i requires 0 <= i < |ids| => ProdutoLookup(ids[i]))
  }

  /** The lookups of a list are those of any split of it, one after the other. */
  lemma ProductLookupsConcat(a: seq<string>, b: seq<string>)
    ensures ProductLookups(a + b) == ProductLookups(a) + ProductLookups(b)
  {
    assert |ProductLookups(a + b)| == |ProductLookups(a) + ProductLookups(b)|;
    forall i | 0 <= i < |a| + |b|
      ensures ProductLookups(a + b)[i] == (ProductLookups(a) + ProductLookups(b))[i]
    {
      if i >= |a| {
        assert (a + b)[i] == b[i - |a|];
      }
    }
  }

  /** Looks each id up in list order: the receipt lines of all of them, or the
      index of the first one that is missing. */
  function Resolve(catalog: map<string, Produto>, ids: seq<string>): (r: Result<seq<Item>, nat>)
    ensures r.Success? <==> AllKnown(catalog, ids)
    ensures r.Success? ==> |r.value| == |ids|
    ensures r.Success? ==> forall i :: 0 <= i < |ids| ==> ids[i] in catalog && r.value[i] == ItemOf(catalog[ids[i]])
    ensures r.Failure? ==> IsFirstUnknown(catalog, ids, r.error)
  {
    if |ids| == 0 then Success([])
    else if ids[0] !in catalog then Failure(0)
    else
      match Resolve(catalog, ids[1..])
      case Success(items) => Success([ItemOf(catalog[ids[0]])] + items)
      case Failure(k) => Failure(k + 1)
  }

  /** The conditions under which a sale goes through. */
  predicate SaleAccepted(store: Store, req: Request) {
    && ValidRequest(req)
    && req.clienteId.value in store.clientes
    && AllKnown(store.produtos, req.produtos.value)
    && req.valorPago.value >= PriceTotal(store.produtos, req.produtos.value)
  }

  /** The sale computation of the `/pdv` handler. */
  function ProcessSale(store: Store, req: Request): (reply: Reply)
    ensures reply.result.Failure? ==> reply.store == store
    ensures reply.result.Success? <==> SaleAccepted(store, req)
    ensures !ValidRequest(req) ==> reply.lookups == []
    ensures ValidRequest(req) ==>
      && 1 <= |reply.lookups| <= |req.produtos.value| + 1
      && reply.lookups[0] == ClienteLookup(req.clienteId.value)
      && reply.lookups[1..] == ProductLookups(req.produtos.value)[..|reply.lookups| - 1]
    ensures ValidRequest(req) && req.clienteId.value in store.clientes && AllKnown(store.produtos, req.produtos.value) ==>
      reply.lookups == [ClienteLookup(req.clienteId.value)] + ProductLookups(req.produtos.value)
    ensures reply.result.Success? ==>
      var v := reply.result.value;
      var ids := req.produtos.value;
      && reply.store == store.(vendas := store.vendas + [v.cupom])
      && v.id == |store.vendas|
      && v.cupom.cliente == Snapshot(store.clientes[req.clienteId.value])
      && |v.cupom.itens| == |ids|
      && (forall i :: 0 <= i < |ids| ==> v.cupom.itens[i] == ItemOf(store.produtos[ids[i]]))
      && v.cupom.valorTotal == PriceTotal(store.produtos, ids)
      && v.cupom.valorPago == req.valorPago.value
      && v.cupom.troco == v.cupom.valorPago - v.cupom.valorTotal >= 0
  {
    if !ValidRequest(req) then Reply(Failure(CamposObrigatorios), store, [])
    else
      var clienteId, ids, pago := req.clienteId.value, req.produtos.value, req.valorPago.value;
      if clienteId !in store.clientes then
        Reply(Failure(ClienteNaoEncontrado), store, [ClienteLookup(clienteId)])
      else
        match Resolve(store.produtos, ids)
        case Failure(k) =>
          Reply(Failure(ProdutoNaoEncontrado(ids[k])), store, [ClienteLookup(clienteId)] + ProductLookups(ids[..k + 1]))
        case Success(itens) =>
          var total := SumItems(itens);
          var lookups := [ClienteLookup(clienteId)] + ProductLookups(ids);
          SumItemsIsPriceTotal(store.produtos, ids, itens);
          if pago < total then
            Reply(Failure(ValorInsuficiente), store, lookups)
          else
            var cupom := Cupom(Snapshot(store.clientes[clienteId]), itens, total, pago, pago - total);
            Reply(Success(Venda(cupom, |store.vendas|)), store.(vendas := store.vendas + [cupom]), lookups)
  }

  /** Summing a list of lines from the right is summing it from the left. */
  lemma {:induction false} SumItemsCons(item: Item, items: seq<Item>)
    ensures SumItems([item] + items) == item.valorUnitario + SumItems(items)
    decreases |items|
  {
    if |items| > 0 {
      assert ([item] + items)[..|items|] == [item] + items[..|items| - 1];
      SumItemsCons(item, items[..|items| - 1]);
    }
  }

  /** The total of the receipt lines of `ids` is the total price of `ids`. */
  lemma {:induction false} SumItemsIsPriceTotal(catalog: map<string, Produto>, ids: seq<string>, items: seq<Item>)
    requires AllKnown(catalog, ids) && |items| == |ids|
    requires forall i :: 0 <= i < |ids| ==> items[i] == ItemOf(catalog[ids[i]])
    ensures SumItems(items) == PriceTotal(catalog, ids)
  {
    if |ids| > 0 {
      SumItemsIsPriceTotal(catalog, ids[1..], items[1..]);
      assert items == [items[0]] + items[1..];
      SumItemsCons(items[0], items[1..]);
    }
  }

  /** The `for` loop of the handler: reads each product in list order,
      pushing its receipt line and adding its price, and stops at the first
      product that is missing. */
  method LookupProducts(catalog: map<string, Produto>, produtos: seq<string>)
    returns (itensCupom: seq<Item>, valorTotal: Cents, missing: Option<nat>, lookups: seq<Lookup>)
    ensures missing.None? ==> Resolve(catalog, produtos) == Success(itensCupom)
    ensures missing.None? ==> valorTotal == SumItems(itensCupom) && lookups == ProductLookups(produtos)
    ensures missing.Some? ==> Resolve(catalog, produtos) == Failure(missing.value)
    ensures missing.Some? ==> missing.value < |produtos| && lookups == ProductLookups(produtos[..missing.value + 1])
  {
    itensCupom, valorTotal, lookups := [], 0, [];
    var i := 0;
    while i < |produtos|
      invariant 0 <= i <= |produtos|
      invariant AllKnown(catalog, produtos[..i])
      invariant |itensCupom| == i
      invariant forall j :: 0 <= j < i ==> itensCupom[j] == ItemOf(catalog[produtos[j]])
      invariant valorTotal == SumItems(itensCupom)
      invariant lookups == ProductLookups(produtos[..i])
    {
      var produtoId := produtos[i];
      lookups := lookups + [ProdutoLookup(produtoId)];
      LookupStep(catalog, produtos, i);
      if produtoId in catalog {
        var produto := catalog[produtoId];
        var item := Item(OrDefault(produto.nome, NomePadrao), OrDefault(produto.descricao, DescricaoPadrao), produto.preco.GetOr(0));
        assert (itensCupom + [item])[..i] == itensCupom;
        itensCupom := itensCupom + [item];
        valorTotal := valorTotal + produto.preco.GetOr(0);
      } else {
        FirstUnknownIsResolved(catalog, produtos, i);
        return itensCupom, valorTotal, Some(i), lookups;
      }
      i := i + 1;
    }
    assert produtos[..i] == produtos;
    AllResolved(catalog, produtos, itensCupom);
    return itensCupom, valorTotal, None, lookups;
  }

  /** One more round of the loop: one more read, and one more known product
      when it is found. */
  lemma LookupStep(catalog: map<string, Produto>, ids: seq<string>, k: nat)
    requires k < |ids|
    ensures ProductLookups(ids[..k + 1]) == ProductLookups(ids[..k]) + [ProdutoLookup(ids[k])]
    ensures AllKnown(catalog, ids[..k]) && ids[k] in catalog ==> AllKnown(catalog, ids[..k + 1])
  {
    assert forall j :: 0 <= j < k ==> ids[..k + 1][j] == ids[..k][j];
  }

  /** When every product is found, `Resolve` yields exactly their lines. */
  lemma AllResolved(catalog: map<string, Produto>, ids: seq<string>, items: seq<Item>)
    requires AllKnown(catalog, ids) && |items| == |ids|
    requires forall j :: 0 <= j < |ids| ==> items[j] == ItemOf(catalog[ids[j]])
    ensures Resolve(catalog, ids) == Success(items)
  {
    var r := Resolve(catalog, ids);
    assert r.value == items;
  }

  /** The first missing product is the one `Resolve` reports. */
  lemma FirstUnknownIsResolved(catalog: map<string, Produto>, ids: seq<string>, k: nat)
    requires k < |ids| && ids[k] !in catalog && AllKnown(catalog, ids[..k])
    ensures Resolve(catalog, ids) == Failure(k)
  {
    assert forall j :: 0 <= j < k ==> ids[j] == ids[..k][j];
    var r := Resolve(catalog, ids);
    assert r.Failure?;
  }

  /** Once every product is found, the reply depends only on the payment. */
  lemma PaymentStage(store: Store, req: Request, itens: seq<Item>)
    requires ValidRequest(req) && req.clienteId.value in store.clientes
    requires Resolve(store.produtos, req.produtos.value) == Success(itens)
    ensures var pago, total := req.valorPago.value, SumItems(itens);
      var lookups := [ClienteLookup(req.clienteId.value)] + ProductLookups(req.produtos.value);
      var cupom := Cupom(Snapshot(store.clientes[req.clienteId.value]), itens, total, pago, pago - total);
      ProcessSale(store, req) ==
        if pago < total then Reply(Failure(ValorInsuficiente), store, lookups)
        else Reply(Success(Venda(cupom, |store.vendas|)), store.(vendas := store.vendas + [cupom]), lookups)
  {
  }

  /** The handler's code path: validation, the customer read, the lookup loop,
      the payment check and the single write. */
  method HandlePdv(store: Store, req: Request) returns (reply: Reply)
    ensures reply == ProcessSale(store, req)
  {
    if req.produtos.None? || |req.produtos.value| == 0 || req.clienteId.None?
      || req.clienteId.value == "" || req.valorPago.None?
    {
      return Reply(Failure(CamposObrigatorios), store, []);
    }
    var produtos, clienteId, valorPago := req.produtos.value, req.clienteId.value, req.valorPago.value;
    if clienteId !in store.clientes {
      return Reply(Failure(ClienteNaoEncontrado), store, [ClienteLookup(clienteId)]);
    }
    var cliente := store.clientes[clienteId];
    var itensCupom, valorTotal, missing, lookups := LookupProducts(store.produtos, produtos);
    if missing.Some? {
      return Reply(Failure(ProdutoNaoEncontrado(produtos[missing.value])), store, [ClienteLookup(clienteId)] + lookups);
    }
    PaymentStage(store, req, itensCupom);
    if valorPago < valorTotal {
      return Reply(Failure(ValorInsuficiente), store, [ClienteLookup(clienteId)] + lookups);
    }
    var troco := valorPago - valorTotal;
    var cupom := Cupom(ClienteSnapshot(cliente.nome, cliente.cpf), itensCupom, valorTotal, valorPago, troco);
    return Reply(Success(Venda(cupom, |store.vendas|)), store.(vendas := store.vendas + [cupom]), [ClienteLookup(clienteId)] + lookups);
  }

  /** A request missing a field is answered 400 before any document is read. */
  lemma IncompleteRequestRejected(store: Store, req: Request)
    requires !ValidRequest(req)
    ensures ProcessSale(store, req).result == Failure(CamposObrigatorios)
    ensures Status(ProcessSale(store, req).result) == 400
    ensures ProcessSale(store, req).lookups == []
    ensures ProcessSale(store, req).store == store
  {
  }

  /** An unknown customer is answered 404 after that single read: no product is looked up. */
  lemma UnknownCustomerRejected(store: Store, req: Request)
    requires ValidRequest(req) && req.clienteId.value !in store.clientes
    ensures ProcessSale(store, req).result == Failure(ClienteNaoEncontrado)
    ensures Status(ProcessSale(store, req).result) == 404
    ensures ProcessSale(store, req).lookups == [ClienteLookup(req.clienteId.value)]
    ensures ProcessSale(store, req).store == store
  {
  }

  /** With several missing products the answer names the first in list order;
      the products after it are never read and nothing is written. */
  lemma FirstMissingProductReported(store: Store, req: Request, k: nat)
    requires ValidRequest(req) && req.clienteId.value in store.clientes
    requires IsFirstUnknown(store.produtos, req.produtos.value, k)
    ensures ProcessSale(store, req).result == Failure(ProdutoNaoEncontrado(req.produtos.value[k]))
    ensures Status(ProcessSale(store, req).result) == 404
    ensures ProcessSale(store, req).lookups == [ClienteLookup(req.clienteId.value)] + ProductLookups(req.produtos.value[..k + 1])
    ensures ProcessSale(store, req).store == store
  {
    var r := Resolve(store.produtos, req.produtos.value);
    assert r.Failure?;
    assert r.error == k;
  }

  /** Paying less than the total is answered 400 and nothing is written, after
      the customer and every listed product have been read. */
  lemma InsufficientPaymentRejected(store: Store, req: Request)
    requires ValidRequest(req) && req.clienteId.value in store.clientes
    requires AllKnown(store.produtos, req.produtos.value)
    requires req.valorPago.value < PriceTotal(store.produtos, req.produtos.value)
    ensures ProcessSale(store, req).result == Failure(ValorInsuficiente)
    ensures Status(ProcessSale(store, req).result) == 400
    ensures ProcessSale(store, req).store == store
    ensures ProcessSale(store, req).lookups == [ClienteLookup(req.clienteId.value)] + ProductLookups(req.produtos.value)
  {
  }

  /** The required-fields answer is given to incomplete requests and to no
      other. */
  lemma RequiredFieldsExact(store: Store, req: Request)
    ensures ProcessSale(store, req).result == Failure(CamposObrigatorios) <==> !ValidRequest(req)
  {
  }

  /** Paying exactly the total is accepted, with no change. */
  lemma ExactPaymentAccepted(store: Store, req: Request)
    requires ValidRequest(req) && req.clienteId.value in store.clientes
    requires AllKnown(store.produtos, req.produtos.value)
    requires req.valorPago.value == PriceTotal(store.produtos, req.produtos.value)
    ensures ProcessSale(store, req).result.Success?
    ensures Status(ProcessSale(store, req).result) == 201
    ensures ProcessSale(store, req).result.value.cupom.troco == 0
  {
  }

  /** A successful sale reads the customer once and every listed product once,
      repeated ids included, in list order. */
  lemma SuccessfulSaleReads(store: Store, req: Request)
    requires SaleAccepted(store, req)
    ensures ProcessSale(store, req).lookups == [ClienteLookup(req.clienteId.value)] + ProductLookups(req.produtos.value)
  {
    var lookups := ProcessSale(store, req).lookups;
    assert lookups == [lookups[0]] + lookups[1..];
  }

  /** The defaults for absent or empty product fields, in the line and in the total. */
  lemma AbsentFieldsDefaulted(store: Store, req: Request, i: nat)
    requires SaleAccepted(store, req) && i < |req.produtos.value|
    ensures var p := store.produtos[req.produtos.value[i]];
      var item := ProcessSale(store, req).result.value.cupom.itens[i];
      && (p.nome.None? ==> item.nome == NomePadrao)
      && (p.nome == Some("") ==> item.nome == NomePadrao)
      && (p.descricao.None? ==> item.descricao == DescricaoPadrao)
      && (p.descricao == Some("") ==> item.descricao == DescricaoPadrao)
      && (p.preco.None? ==> item.valorUnitario == 0)
  {
  }

  /** A sale's total counts one more unit of a product per repeated id. */
  lemma {:induction false} PriceTotalConcat(catalog: map<string, Produto>, a: seq<string>, b: seq<string>)
    requires AllKnown(catalog, a) && AllKnown(catalog, b)
    ensures AllKnown(catalog, a + b)
    ensures PriceTotal(catalog, a + b) == PriceTotal(catalog, a) + PriceTotal(catalog, b)
  {
    assert AllKnown(catalog, a + b) by {
      forall i | 0 <= i < |a + b| ensures (a + b)[i] in catalog {
        if i >= |a| {
          assert (a + b)[i] == b[i - |a|];
        }
      }
    }
    if |a| > 0 {
      assert (a + b)[1..] == a[1..] + b;
      PriceTotalConcat(catalog, a[1..], b);
    } else {
      assert a + b == b;
    }
  }

  /** The worked example: Ana buys a pen (2.50) and a notebook (15.00) and pays 20.00. */
  lemma ReceiptExample()
    ensures var store := Store(
        map["c1" := Cliente(Some("Ana"), Some("52998224725"), map[])],
        map["p1" := Produto(Some("Caneta"), None, Some(250)), "p2" := Produto(Some("Caderno"), None, Some(1500))],
        []);
      var reply := ProcessSale(store, Request(Some(["p1", "p2"]), Some("c1"), Some(2000)));
      && reply.result.Success?
      && reply.result.value.cupom.valorTotal == 1750
      && reply.result.value.cupom.troco == 250
      && reply.result.value.cupom.cliente == ClienteSnapshot(Some("Ana"), Some("52998224725"))
      && reply.result.value.cupom.itens == [Item("Caneta", DescricaoPadrao, 250), Item("Caderno", DescricaoPadrao, 1500)]
      && |reply.store.vendas| == 1
  {
    var catalog := map["p1" := Produto(Some("Caneta"), None, Some(250)), "p2" := Produto(Some("Caderno"), None, Some(1500))];
    assert PriceTotal(catalog, ["p1", "p2"]) == 1750 by {
      assert ["p1", "p2"][1..] == ["p2"];
    }
  }

  /** The same store: a request naming a missing product is answered 404 and no sale is recorded. */
  lemma MissingProductExample()
    ensures var store := Store(
        map["c1" := Cliente(Some("Ana"), Some("52998224725"), map[])],
        map["p1" := Produto(Some("Caneta"), None, Some(250))],
        []);
      var reply := ProcessSale(store, Request(Some(["p1", "missing"]), Some("c1"), Some(10000)));
      && reply.result == Failure(ProdutoNaoEncontrado("missing"))
      && reply.store.vendas == []
  {
    var store := Store(
      map["c1" := Cliente(Some("Ana"), Some("52998224725"), map[])],
      map["p1" := Produto(Some("Caneta"), None, Some(250))],
      []);
    FirstMissingProductReported(store, Request(Some(["p1", "missing"]), Some("c1"), Some(10000)), 1);
  }
}
