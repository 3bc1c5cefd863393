/**
 * The gateway's computed views. Each starts by fetching the client from the
 * storage service and aborts with "not found" on a 404 before computing
 * anything; the fetched responses are parameters here. Amounts are exact reals
 * (the source's rounding to two decimals is not modelled).
 */
module Gateway {
  import opened Wrappers
  import Sums
  import ClientModels

  /** A field of a JSON body: missing, explicitly null, or present. */
  datatype Field<T> = Absent | Null | Present(value: T)

  /** `body.get(key)`: None for a missing key and for null. */
  function Get<T>(f: Field<T>): (r: Option<T>)
    ensures r.Some? <==> f.Present?
    ensures r.Some? ==> r.value == f.value
  {
    if f.Present? then Some(f.value) else None
  }

  /** `body.get(key) or 0.0`: a missing, null or zero amount reads as 0.0. */
  function OrZero(f: Field<real>): (r: real)
    ensures f.Present? ==> r == f.value
    ensures !f.Present? ==> r == 0.0
  {
    if f.Present? && f.value != 0.0 then f.value else 0.0
  }

  /** Why a gateway computation fails instead of answering. */
  datatype GatewayError =
    | NotFound         // the storage service answered 404 for the client
    | UpstreamFailure  // any other error status: `raise_for_status` raises
    | TypeError        // arithmetic on a null total

  /** The client record as the storage service returns it; unknown keys are ignored. */
  datatype ClientData = ClientData(
    id: int,
    nome: string,
    saldo_cc: Field<real>,
    perfil_investidor: Field<string>,
    patrimonio_investimento: Field<real>)

  /** The answer to `GET /clients/{id}`. */
  datatype ClientResponse = ClientNotFound | ClientFailed | ClientOk(data: ClientData)

  /** The answer to `GET /investments/cliente/{id}/total`. */
  datatype TotalResponse = TotalNotFound | TotalBody(total_investido: Field<real>)

  /** The answer to `GET /investments/cliente/{id}`: a list on 200, anything else otherwise. */
  datatype InvestmentsResponse = InvestmentsOk(investimentos: seq<InvestmentJson>) | InvestmentsOther

  /** One investment of the listing; the fields the portfolio analysis reads, each missing, null or present. */
  datatype InvestmentJson = InvestmentJson(
    tipo_investimento: Field<string>,
    valor_investido: Field<real>,
    ativo: Field<bool>)

  /** The client fetch shared by every view: 404 aborts, other errors raise. */
  function FetchClient(resp: ClientResponse): (r: Result<ClientData, GatewayError>)
    ensures resp.ClientNotFound? <==> r == Err(NotFound)
    ensures resp.ClientFailed? <==> r == Err(UpstreamFailure)
    ensures resp.ClientOk? ==> r == Ok(resp.data)
  {
    match resp
    case ClientNotFound => Err(NotFound)
    case ClientFailed => Err(UpstreamFailure)
    case ClientOk(d) => Ok(d)
  }

  /** The total fetch: 404 reads as 0.0, a missing key too; a null total breaks the arithmetic. */
  function FetchTotal(resp: TotalResponse): (r: Result<real, GatewayError>)
    ensures resp.TotalNotFound? ==> r == Ok(0.0)
    ensures resp.TotalBody? && resp.total_investido.Absent? ==> r == Ok(0.0)
    ensures resp.TotalBody? && resp.total_investido.Present? ==> r == Ok(resp.total_investido.value)
    ensures r.Err? <==> resp.TotalBody? && resp.total_investido.Null?
  {
    match resp
    case TotalNotFound => Ok(0.0)
    case TotalBody(Absent) => Ok(0.0)
    case TotalBody(Null) => Err(TypeError)
    case TotalBody(Present(t)) => Ok(t)
  }

  // ---------------------------------------------------------------- credit score

  /** The derived score: a tenth of the balance, None when there is no balance. */
  function ScoreCalculado(saldo: Option<real>): Option<real> {
    if saldo.Some? then Some(saldo.value * 0.1) else None
  }

  /** `GET /clients/{id}/score`. */
  function ScoreCredito(resp: ClientResponse): Result<ClientModels.ScoreOut, GatewayError> {
    match FetchClient(resp)
    case Err(e) => Err(e)
    case Ok(d) =>
      var saldo := Get(d.saldo_cc);
      Ok(ClientModels.ScoreOut(d.id, d.nome, saldo, ScoreCalculado(saldo)))
  }

  /**
   * The score is present exactly when the balance is, is a tenth of it, and stays
   * within the amount bounds of the client models; a 404 yields "not found".
   */
  lemma ScoreCreditoSpec(resp: ClientResponse)
    ensures resp.ClientNotFound? ==> ScoreCredito(resp) == Err(NotFound)
    ensures resp.ClientOk? ==>
      var s := ScoreCredito(resp).value;
      && s.id == resp.data.id && s.saldo_cc == Get(resp.data.saldo_cc)
      && (s.score_calculado.Some? <==> s.saldo_cc.Some?)
      && (s.saldo_cc.Some? ==> s.score_calculado.value * 10.0 == s.saldo_cc.value)
      && (ClientModels.ValidOptionalAmount(s.saldo_cc) ==>
            ClientModels.ValidOptionalAmount(s.score_calculado)
            && (s.saldo_cc.Some? ==> s.score_calculado.value <= s.saldo_cc.value))
  {
  }

  // ----------------------------------------------------------- return projection

  datatype Projecao = Projecao(
    cliente_id: int,
    nome: string,
    perfil_investidor: Option<string>,
    patrimonio_total: real,
    projecao_anual: real,
    taxa_retorno: real)

  /** `cliente_data.get("perfil_investidor", "CONSERVADOR")`: only a missing key gets the default. */
  function Perfil(f: Field<string>): Option<string> {
    match f
    case Absent => Some("CONSERVADOR")
    case Null => None
    case Present(p) => Some(p)
  }

  /** `taxas.get(perfil, 0.08)`. */
  function Taxa(perfil: Option<string>): real {
    if perfil == Some("MODERADO") then 0.12
    else if perfil == Some("ARROJADO") then 0.18
    else 0.08
  }

  /** `GET /calculos/projecao/{id}`: the active invested total times the profile's rate. */
  function ProjecaoRetorno(id: int, client: ClientResponse, total: TotalResponse): Result<Projecao, GatewayError> {
    match FetchClient(client)
    case Err(e) => Err(e)
    case Ok(d) =>
      match FetchTotal(total)
      case Err(e) => Err(e)
      case Ok(t) =>
        var perfil := Perfil(d.perfil_investidor);
        var taxa := Taxa(perfil);
        Ok(Projecao(id, d.nome, perfil, t, t * taxa, taxa * 100.0))
  }

  /**
   * The projection is the invested total (0.0 when its lookup is 404) times 8%, 12%
   * or 18% for a conservative, moderate or aggressive profile; a missing profile
   * counts as conservative and any other value also gets 8%. The rate is reported
   * as a percentage.
   */
  lemma ProjecaoRetornoSpec(id: int, client: ClientResponse, total: TotalResponse)
    ensures client.ClientNotFound? ==> ProjecaoRetorno(id, client, total) == Err(NotFound)
    ensures client.ClientOk? && FetchTotal(total).Ok? ==>
      var p := ProjecaoRetorno(id, client, total).value;
      var t := FetchTotal(total).value;
      && p.patrimonio_total == t
      && p.projecao_anual * 100.0 == p.patrimonio_total * p.taxa_retorno
      && (client.data.perfil_investidor.Absent? ==> p.taxa_retorno == 8.0)
      && (client.data.perfil_investidor == Present("CONSERVADOR") ==> p.taxa_retorno == 8.0)
      && (client.data.perfil_investidor == Present("MODERADO") ==> p.taxa_retorno == 12.0)
      && (client.data.perfil_investidor == Present("ARROJADO") ==> p.taxa_retorno == 18.0)
      && (p.taxa_retorno == 8.0 || p.taxa_retorno == 12.0 || p.taxa_retorno == 18.0)
    ensures client.ClientOk? && total.TotalNotFound? ==> ProjecaoRetorno(id, client, total).value.projecao_anual == 0.0
  {
  }

  // ------------------------------------------------------------------- net worth

  datatype Patrimonio = Patrimonio(
    cliente_id: int,
    nome: string,
    saldo_conta: real,
    patrimonio_investimento: real,
    total_investimentos: real,
    patrimonio_total: real)

  /** `GET /calculos/patrimonio/{id}`: balance plus investable balance plus invested total. */
  function CalcularPatrimonio(id: int, client: ClientResponse, total: TotalResponse): Result<Patrimonio, GatewayError> {
    match FetchClient(client)
    case Err(e) => Err(e)
    case Ok(d) =>
      match FetchTotal(total)
      case Err(e) => Err(e)
      case Ok(t) =>
        var saldo := OrZero(d.saldo_cc);
        var disponivel := OrZero(d.patrimonio_investimento);
        Ok(Patrimonio(id, d.nome, saldo, disponivel, t, saldo + disponivel + t))
  }

  /** The three parts, each 0 when missing, add up to the reported net worth. */
  lemma CalcularPatrimonioSpec(id: int, client: ClientResponse, total: TotalResponse)
    ensures client.ClientNotFound? ==> CalcularPatrimonio(id, client, total) == Err(NotFound)
    ensures client.ClientOk? && FetchTotal(total).Ok? ==>
      var p := CalcularPatrimonio(id, client, total).value;
      && p.patrimonio_total == p.saldo_conta + p.patrimonio_investimento + p.total_investimentos
      && p.saldo_conta == Get(client.data.saldo_cc).GetOr(0.0)
      && p.patrimonio_investimento == Get(client.data.patrimonio_investimento).GetOr(0.0)
      && p.total_investimentos == FetchTotal(total).value
    ensures client.ClientOk? && total.TotalNotFound? ==>
      CalcularPatrimonio(id, client, total).value.patrimonio_total ==
        Get(client.data.saldo_cc).GetOr(0.0) + Get(client.data.patrimonio_investimento).GetOr(0.0)
  {
  }

  // ------------------------------------------------------------ portfolio analysis

  const Desconhecido: string := "DESCONHECIDO"

  /** A key of `por_tipo`: a type name, or None when the listing says null for the type. */
  type Tipo = Option<string>

  /** `inv.get("tipo_investimento", "DESCONHECIDO")`: the default only for a missing key; null stays None. */
  function TipoOf(inv: InvestmentJson): Tipo {
    match inv.tipo_investimento
    case Absent => Some(Desconhecido)
    case Null => None
    case Present(t) => Some(t)
  }

  /** `inv.get("valor_investido", 0)` where it can be added: a null amount makes the addition raise. */
  function ValorOf(inv: InvestmentJson): real {
    if inv.valor_investido.Present? then inv.valor_investido.value else 0.0
  }

  /** Whether the listing says null for the amount: `total += None` raises a TypeError. */
  predicate NullAmount(inv: InvestmentJson) {
    inv.valor_investido.Null?
  }

  /** `if inv.get("ativo", False)`: only a present true counts; missing and null are falsy. */
  function AtivoOf(inv: InvestmentJson): bool {
    inv.ativo == Present(true)
  }

  /** One entry of `por_tipo`. */
  datatype Stats = Stats(quantidade: nat, total: real, ativos: nat)

  /** One entry of `alocacao_por_tipo`. */
  datatype Alocacao = Alocacao(quantidade: nat, total: real, ativos: nat, percentual_carteira: real)

  datatype Carteira = Carteira(
    cliente_id: int,
    total_investido: real,
    numero_investimentos: nat,
    alocacao_por_tipo: map<Tipo, Alocacao>)

  /** Reference definition of `por_tipo`: the investments grouped by type, one at a time. */
  function Group(invs: seq<InvestmentJson>): map<Tipo, Stats>
    decreases |invs|
  {
    if invs == [] then map[]
    else
      var g := Group(invs[..|invs| - 1]);
      var inv := invs[|invs| - 1];
      var s := if TipoOf(inv) in g then g[TipoOf(inv)] else Stats(0, 0.0, 0);
      g[TipoOf(inv) := Stats(s.quantidade + 1, s.total + ValorOf(inv), s.ativos + if AtivoOf(inv) then 1 else 0)]
  }

  /** One more investment, in the terms the loop of `analise_carteira` uses. */
  lemma GroupStep(invs: seq<InvestmentJson>, i: int)
    requires 0 <= i < |invs|
    ensures var g, inv := Group(invs[..i]), invs[i];
      var s := if TipoOf(inv) in g then g[TipoOf(inv)] else Stats(0, 0.0, 0);
      Group(invs[..i + 1]) == g[TipoOf(inv) := Stats(s.quantidade + 1, s.total + ValorOf(inv), s.ativos + if AtivoOf(inv) then 1 else 0)]
    ensures SumValor(invs[..i + 1]) == SumValor(invs[..i]) + ValorOf(invs[i])
  {
    assert invs[..i + 1][..i] == invs[..i];
  }

  /** Writing a key twice leaves only the second value. */
  lemma OverwrittenEntry(g: map<Tipo, Stats>, t: Tipo, a: Stats, b: Stats)
    ensures g[t := a][t := b] == g[t := b]
  {
  }

  /** Reference definition of `total_investido`: every investment's amount, active or not. */
  function SumValor(invs: seq<InvestmentJson>): real
    decreases |invs|
  {
    if invs == [] then 0.0 else SumValor(invs[..|invs| - 1]) + ValorOf(invs[|invs| - 1])
  }

  /** A type's share of the whole, in percent; 0 when the whole is not positive. */
  function Percentual(total: real, totalInvestido: real): real {
    if totalInvestido > 0.0 then total / totalInvestido * 100.0 else 0.0
  }

  function QuantidadeOf(g: map<Tipo, Stats>): Tipo -> real {
    t => if t in g then g[t].quantidade as real else 0.0
  }

  function TotalOf(g: map<Tipo, Stats>): Tipo -> real {
    t => if t in g then g[t].total else 0.0
  }

  function PercentualOf(a: map<Tipo, Alocacao>): Tipo -> real {
    t => if t in a then a[t].percentual_carteira else 0.0
  }

  /**
   * `GET /analises/carteira/{id}`: one pass over the listing fills `por_tipo` and the
   * running total; a second pass over `por_tipo` turns each entry into its share.
   * A listing that does not answer 200 counts as empty; a null amount anywhere in it
   * makes the running sum raise, and the request fails.
   */
  method AnaliseCarteira(id: int, client: ClientResponse, listing: InvestmentsResponse)
    returns (r: Result<Carteira, GatewayError>)
    ensures client.ClientNotFound? ==> r == Err(NotFound)
    ensures client.ClientFailed? ==> r == Err(UpstreamFailure)
    ensures client.ClientOk? ==>
      var invs := if listing.InvestmentsOk? then listing.investimentos else [];
      (r.Err? <==> exists i :: 0 <= i < |invs| && NullAmount(invs[i])) && (r.Err? ==> r == Err(TypeError))
    ensures client.ClientOk? && r.Ok? ==>
      var invs := if listing.InvestmentsOk? then listing.investimentos else [];
      && r.value.cliente_id == id
      && r.value.numero_investimentos == |invs|
      && r.value.total_investido == SumValor(invs)
      && r.value.alocacao_por_tipo.Keys == Group(invs).Keys
      && forall t :: t in Group(invs) ==>
           r.value.alocacao_por_tipo[t] == Alocacao(Group(invs)[t].quantidade, Group(invs)[t].total,
             Group(invs)[t].ativos, Percentual(Group(invs)[t].total, SumValor(invs)))
  {
    var fetched := FetchClient(client);
    if fetched.Err? {
      return Err(fetched.error);
    }
    var invs := if listing.InvestmentsOk? then listing.investimentos else [];
    var porTipo: map<Tipo, Stats> := map[];
    var totalInvestido := 0.0;
    for i := 0 to |invs|
      invariant porTipo == Group(invs[..i])
      invariant totalInvestido == SumValor(invs[..i])
      invariant forall j :: 0 <= j < i ==> !NullAmount(invs[j])
    {
      GroupStep(invs, i);
      ghost var before := porTipo;
      var inv := invs[i];
      var tipo := TipoOf(inv);
      if tipo !in porTipo {
        porTipo := porTipo[tipo := Stats(0, 0.0, 0)];
      }
      if NullAmount(inv) {
        return Err(TypeError);
      }
      var valor := ValorOf(inv);
      var s := porTipo[tipo];
      s := s.(quantidade := s.quantidade + 1, total := s.total + valor);
      totalInvestido := totalInvestido + valor;
      if AtivoOf(inv) {
        s := s.(ativos := s.ativos + 1);
      }
      if tipo !in before {
        OverwrittenEntry(before, tipo, Stats(0, 0.0, 0), s);
      }
      porTipo := porTipo[tipo := s];
    }
    assert invs[..|invs|] == invs;
    var alocacao := Percentuais(porTipo, totalInvestido);
    r := Ok(Carteira(id, totalInvestido, |invs|, alocacao));
  }

  /** The second loop of `analise_carteira`: each type's figures with its share of the total. */
  method Percentuais(porTipo: map<Tipo, Stats>, totalInvestido: real) returns (alocacao: map<Tipo, Alocacao>)
    ensures alocacao.Keys == porTipo.Keys
    ensures forall t :: t in alocacao ==> alocacao[t] == Alocacao(porTipo[t].quantidade, porTipo[t].total,
              porTipo[t].ativos, Percentual(porTipo[t].total, totalInvestido))
  {
    alocacao := map[];
    var rest := porTipo.Keys;
    while rest != {}
      invariant rest <= porTipo.Keys
      invariant alocacao.Keys == porTipo.Keys - rest
      invariant forall t :: t in alocacao ==> alocacao[t] == Alocacao(porTipo[t].quantidade, porTipo[t].total,
                  porTipo[t].ativos, Percentual(porTipo[t].total, totalInvestido))
      decreases rest
    {
      ghost var some := Sums.MemberOf(rest);
      var tipo :| tipo in rest;
      var dados := porTipo[tipo];
      var percentual := if totalInvestido > 0.0 then dados.total / totalInvestido * 100.0 else 0.0;
      alocacao := alocacao[tipo := Alocacao(dados.quantidade, dados.total, dados.ativos, percentual)];
      rest := rest - {tipo};
    }
  }

  /** The types that occur in a listing, a missing type counted as "DESCONHECIDO". */
  function Tipos(invs: seq<InvestmentJson>): set<Tipo>
    decreases |invs|
  {
    if invs == [] then {} else Tipos(invs[..|invs| - 1]) + {TipoOf(invs[|invs| - 1])}
  }

  lemma {:induction false} TiposMembers(invs: seq<InvestmentJson>, i: int)
    requires 0 <= i < |invs|
    ensures TipoOf(invs[i]) in Tipos(invs)
    decreases |invs|
  {
    if i < |invs| - 1 {
      assert invs[..|invs| - 1][i] == invs[i];
      TiposMembers(invs[..|invs| - 1], i);
    }
  }

  /**
   * Grouping keeps one entry per type that occurs, each non-empty and with no more
   * active entries than entries.
   */
  lemma {:induction false} GroupKeys(invs: seq<InvestmentJson>)
    ensures Group(invs).Keys == Tipos(invs)
    ensures forall t :: t in Group(invs) ==> 1 <= Group(invs)[t].quantidade && Group(invs)[t].ativos <= Group(invs)[t].quantidade
    decreases |invs|
  {
    if invs != [] {
      GroupKeys(invs[..|invs| - 1]);
    }
  }

  /** Grouping is a partition: the group counts add up to the length of the listing. */
  lemma {:induction false} GroupCountsAddUp(invs: seq<InvestmentJson>)
    ensures Sums.SetSum(Group(invs).Keys, QuantidadeOf(Group(invs))) == |invs| as real
    decreases |invs|
  {
    if invs != [] {
      var prefix := invs[..|invs| - 1];
      var t := TipoOf(invs[|invs| - 1]);
      GroupCountsAddUp(prefix);
      var g, g' := Group(prefix), Group(invs);
      if t in g {
        assert g'.Keys == g.Keys && g'[t].quantidade == g[t].quantidade + 1;
        Sums.SetSumUpdate(g.Keys, QuantidadeOf(g), QuantidadeOf(g'), t);
      } else {
        assert g'.Keys == g.Keys + {t};
        Sums.SetSumInsert(g.Keys, QuantidadeOf(g'), t);
        Sums.SetSumAgree(g.Keys, QuantidadeOf(g), QuantidadeOf(g'));
      }
    }
  }

  /** The group totals add up to the overall total. */
  lemma {:induction false} GroupTotalsAddUp(invs: seq<InvestmentJson>)
    ensures Sums.SetSum(Group(invs).Keys, TotalOf(Group(invs))) == SumValor(invs)
    decreases |invs|
  {
    if invs != [] {
      var prefix := invs[..|invs| - 1];
      var t := TipoOf(invs[|invs| - 1]);
      GroupTotalsAddUp(prefix);
      var g, g' := Group(prefix), Group(invs);
      if t in g {
        assert g'.Keys == g.Keys && g'[t].total == g[t].total + ValorOf(invs[|invs| - 1]);
        Sums.SetSumUpdate(g.Keys, TotalOf(g), TotalOf(g'), t);
      } else {
        assert g'.Keys == g.Keys + {t};
        Sums.SetSumInsert(g.Keys, TotalOf(g'), t);
        Sums.SetSumAgree(g.Keys, TotalOf(g), TotalOf(g'));
      }
    }
  }

  /**
   * The shares are each type's total over the overall total, in percent: when the
   * overall total is positive they add up to 100, otherwise every share is 0.
   */
  lemma PercentagesAddUp(g: map<Tipo, Stats>, a: map<Tipo, Alocacao>, totalInvestido: real)
    requires a.Keys == g.Keys
    requires forall t :: t in g ==> a[t].percentual_carteira == Percentual(g[t].total, totalInvestido)
    requires Sums.SetSum(g.Keys, TotalOf(g)) == totalInvestido
    ensures totalInvestido > 0.0 ==> Sums.SetSum(a.Keys, PercentualOf(a)) == 100.0
    ensures totalInvestido <= 0.0 ==> forall t :: t in a ==> a[t].percentual_carteira == 0.0
  {
    if totalInvestido > 0.0 {
      SharesAddUp(g, a, totalInvestido);
    }
  }

  lemma SharesAddUp(g: map<Tipo, Stats>, a: map<Tipo, Alocacao>, totalInvestido: real)
    requires totalInvestido > 0.0 && a.Keys == g.Keys
    requires forall t :: t in g ==> a[t].percentual_carteira == Percentual(g[t].total, totalInvestido)
    requires Sums.SetSum(g.Keys, TotalOf(g)) == totalInvestido
    ensures Sums.SetSum(a.Keys, PercentualOf(a)) == 100.0
  {
    var soma := Sums.SetSum(a.Keys, PercentualOf(a));
    assert soma == (100.0 / totalInvestido) * totalInvestido by {
      SharesScaled(g, a, totalInvestido);
      ScaledShares(g.Keys, TotalOf(g), PercentualOf(a), 100.0 / totalInvestido);
    }
    WholeIsHundred(soma, totalInvestido);
  }

  /** Each type's percentage is its total scaled by one common factor. */
  lemma SharesScaled(g: map<Tipo, Stats>, a: map<Tipo, Alocacao>, totalInvestido: real)
    requires totalInvestido > 0.0 && a.Keys == g.Keys
    requires forall t :: t in g ==> a[t].percentual_carteira == Percentual(g[t].total, totalInvestido)
    ensures forall t :: t in g.Keys ==> PercentualOf(a)(t) == (100.0 / totalInvestido) * TotalOf(g)(t)
  {
    forall t | t in g.Keys ensures PercentualOf(a)(t) == (100.0 / totalInvestido) * TotalOf(g)(t) {
      ShareIsScaled(g[t].total, totalInvestido);
    }
  }

  lemma ShareIsScaled(x: real, whole: real)
    requires whole > 0.0
    ensures x / whole * 100.0 == (100.0 / whole) * x
  {
  }

  lemma WholeIsHundred(soma: real, whole: real)
    requires whole > 0.0 && soma == (100.0 / whole) * whole
    ensures soma == 100.0
  {
  }

  /** The scaling lemma at the types used here, kept apart from the division above. */
  lemma ScaledShares(keys: set<Tipo>, f: Tipo -> real, h: Tipo -> real, c: real)
    requires forall k :: k in keys ==> h(k) == c * f(k)
    ensures Sums.SetSum(keys, h) == c * Sums.SetSum(keys, f)
  {
    Sums.SetSumScale(keys, f, h, c);
  }

  /** The portfolio answer satisfies all of the above together. */
  lemma AnaliseCarteiraConsistent(invs: seq<InvestmentJson>, c: Carteira)
    requires c.numero_investimentos == |invs| && c.total_investido == SumValor(invs)
    requires c.alocacao_por_tipo.Keys == Group(invs).Keys
    requires forall t :: t in Group(invs) ==>
      c.alocacao_por_tipo[t] == Alocacao(Group(invs)[t].quantidade, Group(invs)[t].total,
        Group(invs)[t].ativos, Percentual(Group(invs)[t].total, SumValor(invs)))
    ensures forall t :: t in c.alocacao_por_tipo ==> c.alocacao_por_tipo[t].ativos <= c.alocacao_por_tipo[t].quantidade
    ensures (exists i :: 0 <= i < |invs| && invs[i].tipo_investimento.Absent?) ==> Some(Desconhecido) in c.alocacao_por_tipo
    ensures (exists i :: 0 <= i < |invs| && invs[i].tipo_investimento.Null?) ==> None in c.alocacao_por_tipo
    ensures c.total_investido > 0.0 ==> Sums.SetSum(c.alocacao_por_tipo.Keys, PercentualOf(c.alocacao_por_tipo)) == 100.0
  {
    GroupKeys(invs);
    GroupTotalsAddUp(invs);
    if exists i :: 0 <= i < |invs| && invs[i].tipo_investimento.Absent? {
      var i :| 0 <= i < |invs| && invs[i].tipo_investimento.Absent?;
      TiposMembers(invs, i);
    }
    if exists i :: 0 <= i < |invs| && invs[i].tipo_investimento.Null? {
      var i :| 0 <= i < |invs| && invs[i].tipo_investimento.Null?;
      TiposMembers(invs, i);
    }
    PercentagesAddUp(Group(invs), c.alocacao_por_tipo, c.total_investido);
  }
}
