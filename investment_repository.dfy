/**
 * The storage service's investment repository: CRUD over the `investments`
 * table, the per-client listing ordered by application time, the partial
 * update assembled column by column, and the SUM of active invested amounts.
 * The table is the map from id to row. Its schema is not part of this model: ids are
 * assumed to come from an AUTOINCREMENT counter, `lastId`, as they do for `clients`.
 */
module InvestmentRepository {
  import opened Wrappers
  import Sums
  import SqlColumns

  datatype TipoInvestimento = RENDA_FIXA | ACOES | FUNDOS | CRIPTO

  /** `InvestimentoCreate`: `rentabilidade` may be omitted. */
  datatype InvestimentoCreate = InvestimentoCreate(
    cliente_id: int,
    tipo_investimento: TipoInvestimento,
    ticker: Option<string>,
    valor_investido: real,
    rentabilidade: Option<real>,
    ativo: bool)

  /** `InvestimentoUpdate`: every field optional, None meaning "leave as is". */
  datatype InvestimentoUpdate = InvestimentoUpdate(
    tipo_investimento: Option<TipoInvestimento>,
    ticker: Option<string>,
    valor_investido: Option<real>,
    rentabilidade: Option<real>,
    ativo: Option<bool>)

  const EmptyUpdate: InvestimentoUpdate := InvestimentoUpdate(None, None, None, None, None)

  /** `InvestimentoOut`. */
  datatype Investimento = Investimento(
    id: int,
    cliente_id: int,
    tipo_investimento: TipoInvestimento,
    ticker: Option<string>,
    valor_investido: real,
    rentabilidade: real,
    ativo: bool,
    data_aplicacao: int)

  /** A stored row: `ativo` is an INTEGER column, `data_aplicacao` the insert time. */
  datatype InvRow = InvRow(
    id: int,
    cliente_id: int,
    tipo_investimento: TipoInvestimento,
    ticker: Option<string>,
    valor_investido: real,
    rentabilidade: real,
    ativo: int,
    data_aplicacao: int)

  /** The row comprehension of `get_all`, `get_by_id` and `get_by_cliente`. */
  function RowToInvestimento(row: InvRow): Investimento {
    Investimento(row.id, row.cliente_id, row.tipo_investimento, row.ticker,
      row.valor_investido, row.rentabilidade, row.ativo != 0, row.data_aplicacao)
  }

  /** The row `create` inserts: a missing `rentabilidade` is stored as 0.0. */
  function InsertRow(id: int, inv: InvestimentoCreate, now: int): InvRow {
    InvRow(id, inv.cliente_id, inv.tipo_investimento, inv.ticker, inv.valor_investido,
      inv.rentabilidade.GetOr(0.0), SqlColumns.BoolColumn(inv.ativo), now)
  }

  /** One `column = ?` entry of the SET list that `update` assembles. */
  datatype Assignment =
    | SetTipo(tipo: TipoInvestimento)
    | SetTicker(ticker: string)
    | SetValor(valor: real)
    | SetRentabilidade(rentabilidade: real)
    | SetAtivo(ativo: bool)

  function Assign(row: InvRow, a: Assignment): InvRow {
    match a
    case SetTipo(t) => row.(tipo_investimento := t)
    case SetTicker(s) => row.(ticker := Some(s))
    case SetValor(v) => row.(valor_investido := v)
    case SetRentabilidade(p) => row.(rentabilidade := p)
    case SetAtivo(b) => row.(ativo := SqlColumns.BoolColumn(b))
  }

  /** `UPDATE investments SET <assignments> WHERE id = ?` on the matching row. */
  function AssignAll(row: InvRow, s: seq<Assignment>): InvRow
    decreases |s|
  {
    if s == [] then row else Assign(AssignAll(row, s[..|s| - 1]), s[|s| - 1])
  }

  lemma AssignAllSnoc(row: InvRow, s: seq<Assignment>, a: Assignment)
    ensures AssignAll(row, s + [a]) == Assign(AssignAll(row, s), a)
  {
    assert (s + [a])[..|s|] == s;
  }

  /** What the update means: every non-None field of the patch replaces the stored one. */
  function MergeRow(row: InvRow, patch: InvestimentoUpdate): InvRow {
    InvRow(
      row.id,
      row.cliente_id,
      patch.tipo_investimento.GetOr(row.tipo_investimento),
      if patch.ticker.Some? then patch.ticker else row.ticker,
      patch.valor_investido.GetOr(row.valor_investido),
      patch.rentabilidade.GetOr(row.rentabilidade),
      if patch.ativo.Some? then SqlColumns.BoolColumn(patch.ativo.value) else row.ativo,
      row.data_aplicacao)
  }

  /** The amount a row adds to `get_total_investido_cliente(c)`: active rows of client c only. */
  function ActiveAmount(rows: map<int, InvRow>, c: int): int -> real {
    k => if k in rows && rows[k].cliente_id == c && rows[k].ativo == 1 then rows[k].valor_investido else 0.0
  }

  /** `SELECT COALESCE(SUM(valor_investido), 0) ... WHERE cliente_id = ? AND ativo = 1`. */
  ghost function TotalInvested(rows: map<int, InvRow>, c: int): real {
    Sums.SetSum(rows.Keys, ActiveAmount(rows, c))
  }

  /** Rows keyed by their own id, with `ativo` stored as 0 or 1. */
  ghost predicate WellFormed(rows: map<int, InvRow>) {
    forall id :: id in rows ==> rows[id].id == id && (rows[id].ativo == 0 || rows[id].ativo == 1)
  }

  /** Ordered newest first: `ORDER BY data_aplicacao DESC`. */
  ghost predicate NewestFirst(s: seq<Investimento>) {
    forall i, j :: 0 <= i < j < |s| ==> s[i].data_aplicacao >= s[j].data_aplicacao
  }

  /** The row of `ids` with the latest application time (ties: any of them). */
  method Newest(rows: map<int, InvRow>, ids: set<int>) returns (k: int)
    requires ids != {} && ids <= rows.Keys
    ensures k in ids
    ensures forall j :: j in ids ==> rows[j].data_aplicacao <= rows[k].data_aplicacao
  {
    ghost var some := Sums.MemberOf(ids);
    k :| k in ids;
    var rest := ids - {k};
    while rest != {}
      invariant rest <= ids && k in ids
      invariant forall j :: j in ids && j !in rest ==> rows[j].data_aplicacao <= rows[k].data_aplicacao
      decreases rest
    {
      ghost var other := Sums.MemberOf(rest);
      var j :| j in rest;
      if rows[j].data_aplicacao > rows[k].data_aplicacao {
        k := j;
      }
      rest := rest - {j};
    }
  }

  /** The SELECT shared by `get_all` and `get_by_cliente`: the rows of `ids`, newest first. */
  method SelectNewestFirst(rows: map<int, InvRow>, ids: set<int>) returns (r: seq<Investimento>)
    requires ids <= rows.Keys && WellFormed(rows)
    ensures |r| == |ids|
    ensures NewestFirst(r)
    ensures forall i :: 0 <= i < |r| ==> r[i].id in ids && r[i] == RowToInvestimento(rows[r[i].id])
    ensures forall id :: id in ids ==> exists i :: 0 <= i < |r| && r[i].id == id
    ensures forall i, j :: 0 <= i < j < |r| ==> r[i].id != r[j].id
  {
    r := [];
    var rest := ids;
    while rest != {}
      invariant rest <= ids
      invariant |r| + |rest| == |ids|
      invariant NewestFirst(r)
      invariant forall i :: 0 <= i < |r| ==> r[i].id in ids && r[i].id !in rest && r[i] == RowToInvestimento(rows[r[i].id])
      invariant forall i, j :: 0 <= i < |r| && j in rest ==> r[i].data_aplicacao >= rows[j].data_aplicacao
      invariant forall id :: id in ids && id !in rest ==> exists i :: 0 <= i < |r| && r[i].id == id
      invariant forall i, j :: 0 <= i < j < |r| ==> r[i].id != r[j].id
      decreases rest
    {
      var k := Newest(rows, rest);
      ghost var before := r;
      var novo := RowToInvestimento(rows[k]);
      assert novo.id == k && novo.data_aplicacao == rows[k].data_aplicacao;
      assert forall i :: 0 <= i < |r| ==> r[i].data_aplicacao >= novo.data_aplicacao && r[i].id != k;
      AppendOrdered(r, novo);
      AppendCovers(r, novo, ids, rest);
      r := r + [novo];
      assert forall i :: 0 <= i < |before| ==> r[i] == before[i];
      assert r[|before|] == novo;
      rest := rest - {k};
    }
  }

  /** Appending a row no newer than every row so far, with a new id, keeps the order and the ids distinct. */
  lemma AppendOrdered(r: seq<Investimento>, novo: Investimento)
    requires NewestFirst(r) && forall i, j :: 0 <= i < j < |r| ==> r[i].id != r[j].id
    requires forall i :: 0 <= i < |r| ==> r[i].data_aplicacao >= novo.data_aplicacao && r[i].id != novo.id
    ensures NewestFirst(r + [novo])
    ensures forall i, j :: 0 <= i < j < |r + [novo]| ==> (r + [novo])[i].id != (r + [novo])[j].id
  {
    var r' := r + [novo];
    assert forall i :: 0 <= i < |r| ==> r'[i] == r[i];
  }

  /** Appending the row taken out of `rest` keeps every id outside `rest` listed. */
  lemma AppendCovers(r: seq<Investimento>, novo: Investimento, ids: set<int>, rest: set<int>)
    requires forall id :: id in ids && id !in rest ==> exists i :: 0 <= i < |r| && r[i].id == id
    ensures forall id :: id in ids && id !in rest - {novo.id} ==> exists i :: 0 <= i < |r + [novo]| && (r + [novo])[i].id == id
  {
    var r' := r + [novo];
    forall id | id in ids && id !in rest - {novo.id}
      ensures exists i :: 0 <= i < |r'| && r'[i].id == id
    {
      if id == novo.id {
        assert r'[|r|].id == id;
      } else {
        var i :| 0 <= i < |r| && r[i].id == id;
        assert r'[i].id == id;
      }
    }
  }

  /** Appending one assignment to a SET list that means `done` gives a list that means `next`. */
  lemma SetListStep(s: seq<Assignment>, done: InvestimentoUpdate, a: Assignment, next: InvestimentoUpdate)
    requires forall row :: AssignAll(row, s) == MergeRow(row, done)
    requires forall row :: Assign(MergeRow(row, done), a) == MergeRow(row, next)
    ensures forall row :: AssignAll(row, s + [a]) == MergeRow(row, next)
  {
    forall row ensures AssignAll(row, s + [a]) == MergeRow(row, next) {
      AssignAllSnoc(row, s, a);
    }
  }

  /**
   * The `updates`/`valores` lists of `update`: one assignment per non-None field, in
   * the order tipo, ticker, valor, rentabilidade, ativo. Executed as one UPDATE, the
   * list writes exactly the non-None fields; it is empty exactly for the empty patch.
   */
  method SetList(patch: InvestimentoUpdate) returns (updates: seq<Assignment>)
    ensures updates == [] <==> patch == EmptyUpdate
    ensures |updates| <= 5
    ensures forall row :: AssignAll(row, updates) == MergeRow(row, patch)
  {
    updates := [];
    ghost var done := EmptyUpdate;
    assert forall row :: MergeRow(row, EmptyUpdate) == row;
    if patch.tipo_investimento.Some? {
      SetListStep(updates, done, SetTipo(patch.tipo_investimento.value), done.(tipo_investimento := patch.tipo_investimento));
      updates := updates + [SetTipo(patch.tipo_investimento.value)];
      done := done.(tipo_investimento := patch.tipo_investimento);
    }
    if patch.ticker.Some? {
      SetListStep(updates, done, SetTicker(patch.ticker.value), done.(ticker := patch.ticker));
      updates := updates + [SetTicker(patch.ticker.value)];
      done := done.(ticker := patch.ticker);
    }
    if patch.valor_investido.Some? {
      SetListStep(updates, done, SetValor(patch.valor_investido.value), done.(valor_investido := patch.valor_investido));
      updates := updates + [SetValor(patch.valor_investido.value)];
      done := done.(valor_investido := patch.valor_investido);
    }
    if patch.rentabilidade.Some? {
      SetListStep(updates, done, SetRentabilidade(patch.rentabilidade.value), done.(rentabilidade := patch.rentabilidade));
      updates := updates + [SetRentabilidade(patch.rentabilidade.value)];
      done := done.(rentabilidade := patch.rentabilidade);
    }
    if patch.ativo.Some? {
      SetListStep(updates, done, SetAtivo(patch.ativo.value), done.(ativo := patch.ativo));
      updates := updates + [SetAtivo(patch.ativo.value)];
      done := done.(ativo := patch.ativo);
    }
    assert done == patch;
  }

  class InvestmentTable {
    var rows: map<int, InvRow>
    /** The assumed AUTOINCREMENT counter: the largest id ever handed out. */
    var lastId: int

    ghost predicate Valid()
      reads this
    {
      && lastId >= 0
      && WellFormed(rows)
      && (forall id :: id in rows ==> 0 < id <= lastId)
    }

    constructor ()
      ensures Valid() && rows == map[] && lastId == 0
    {
      rows := map[];
      lastId := 0;
    }

    /** `get_by_id`: None exactly when no investment has the id. */
    function GetById(id: int): (r: Option<Investimento>)
      reads this
      ensures r.None? <==> id !in rows
      ensures Valid() && r.Some? ==> r.value.id == id
    {
      if id in rows then Some(RowToInvestimento(rows[id])) else None
    }

    /**
     * `create`: the row is inserted under a fresh id larger than every earlier one (the
     * assumed AUTOINCREMENT rule; a plain rowid would still exceed every id present),
     * stamped with the insert time, and returned as read back.
     */
    method Create(inv: InvestimentoCreate, now: int) returns (r: Investimento)
      requires Valid()
      modifies this
      ensures Valid()
      ensures lastId == old(lastId) + 1 && r.id == lastId
      ensures forall k :: k in old(rows) ==> k < r.id
      ensures rows == old(rows)[r.id := InsertRow(r.id, inv, now)]
      ensures r.cliente_id == inv.cliente_id && r.tipo_investimento == inv.tipo_investimento
      ensures r.ticker == inv.ticker && r.valor_investido == inv.valor_investido && r.ativo == inv.ativo
      ensures r.rentabilidade == inv.rentabilidade.GetOr(0.0) && r.data_aplicacao == now
      ensures GetById(r.id) == Some(r)
    {
      lastId := lastId + 1;
      rows := rows[lastId := InsertRow(lastId, inv, now)];
      r := GetById(lastId).value;
    }

    /** `get_all`: every investment exactly once, newest first. */
    method GetAll() returns (r: seq<Investimento>)
      requires Valid()
      ensures |r| == |rows.Keys| && NewestFirst(r)
      ensures forall i :: 0 <= i < |r| ==> r[i].id in rows && r[i] == RowToInvestimento(rows[r[i].id])
      ensures forall id :: id in rows ==> exists i :: 0 <= i < |r| && r[i].id == id
      ensures forall i, j :: 0 <= i < j < |r| ==> r[i].id != r[j].id
    {
      r := SelectNewestFirst(rows, rows.Keys);
    }

    /** `get_by_cliente`: exactly the investments of that client, each once, newest first. */
    method GetByCliente(c: int) returns (r: seq<Investimento>)
      requires Valid()
      ensures NewestFirst(r)
      ensures forall i :: 0 <= i < |r| ==> r[i].cliente_id == c && r[i].id in rows && r[i] == RowToInvestimento(rows[r[i].id])
      ensures forall id :: id in rows && rows[id].cliente_id == c ==> exists i :: 0 <= i < |r| && r[i].id == id
      ensures forall i, j :: 0 <= i < j < |r| ==> r[i].id != r[j].id
    {
      var ids := set id | id in rows && rows[id].cliente_id == c;
      assert forall id :: id in rows && rows[id].cliente_id == c ==> id in ids;
      r := SelectNewestFirst(rows, ids);
    }

    /**
     * `update`: the SET list gets one entry per non-None field, in the source's order.
     * An empty list means no write at all and the current record (or None) is returned;
     * an unknown id matches no row, so nothing changes and None is returned.
     */
    method Update(id: int, patch: InvestimentoUpdate) returns (r: Option<Investimento>)
      requires Valid()
      modifies this
      ensures Valid() && lastId == old(lastId)
      ensures patch == EmptyUpdate ==> rows == old(rows) && r == old(GetById(id))
      ensures id !in old(rows) ==> rows == old(rows) && r.None?
      ensures id in old(rows) ==>
        && rows == old(rows)[id := MergeRow(old(rows)[id], patch)]
        && r == Some(RowToInvestimento(MergeRow(old(rows)[id], patch)))
    {
      var updates := SetList(patch);
      if updates == [] {
        return GetById(id);
      }
      if id in rows {
        rows := rows[id := AssignAll(rows[id], updates)];
      }
      r := GetById(id);
    }

    /** `delete`: true exactly when the row existed; afterwards `get_by_id` finds nothing. */
    method Delete(id: int) returns (existed: bool)
      requires Valid()
      modifies this
      ensures Valid() && lastId == old(lastId)
      ensures existed <==> id in old(rows)
      ensures rows == old(rows) - {id}
      ensures GetById(id).None?
    {
      existed := id in rows;
      rows := rows - {id};
    }

    /** `get_total_investido_cliente`: the SUM over the client's active rows, 0.0 when none. */
    method GetTotalInvestidoCliente(c: int) returns (total: real)
      requires Valid()
      ensures total == TotalInvested(rows, c)
    {
      total := 0.0;
      var rest := rows.Keys;
      while rest != {}
        invariant rest <= rows.Keys
        invariant total + Sums.SetSum(rest, ActiveAmount(rows, c)) == TotalInvested(rows, c)
        decreases rest
      {
        ghost var some := Sums.MemberOf(rest);
        var k :| k in rest;
        Sums.SetSumRemove(rest, ActiveAmount(rows, c), k);
        if rows[k].cliente_id == c && rows[k].ativo == 1 {
          total := total + rows[k].valor_investido;
        }
        rest := rest - {k};
      }
    }
  }
}

/** Properties of the investment table that relate several operations. */
module InvestmentProperties {
  import opened Wrappers
  import Sums
  import opened InvestmentRepository

  /** No SET list touches the id, the owning client or the application time. */
  lemma {:induction false} AssignmentsKeepIdentity(row: InvRow, s: seq<Assignment>)
    ensures AssignAll(row, s).id == row.id
    ensures AssignAll(row, s).cliente_id == row.cliente_id
    ensures AssignAll(row, s).data_aplicacao == row.data_aplicacao
    decreases |s|
  {
    if s != [] {
      AssignmentsKeepIdentity(row, s[..|s| - 1]);
    }
  }

  /** Inserting a row under a new id adds its amount to the total of its client, if it is active. */
  lemma TotalAfterInsert(rows: map<int, InvRow>, k: int, row: InvRow, c: int)
    requires k !in rows
    ensures TotalInvested(rows[k := row], c) ==
      TotalInvested(rows, c) + (if row.cliente_id == c && row.ativo == 1 then row.valor_investido else 0.0)
  {
    var f, g := ActiveAmount(rows, c), ActiveAmount(rows[k := row], c);
    assert rows[k := row].Keys == rows.Keys + {k};
    Sums.SetSumInsert(rows.Keys, g, k);
    Sums.SetSumAgree(rows.Keys, f, g);
  }

  /** Deleting a row takes its amount out of its client's total, if it was active. */
  lemma TotalAfterDelete(rows: map<int, InvRow>, k: int, c: int)
    requires k in rows
    ensures TotalInvested(rows - {k}, c) ==
      TotalInvested(rows, c) - (if rows[k].cliente_id == c && rows[k].ativo == 1 then rows[k].valor_investido else 0.0)
  {
    var f, g := ActiveAmount(rows, c), ActiveAmount(rows - {k}, c);
    assert (rows - {k}).Keys == rows.Keys - {k};
    Sums.SetSumRemove(rows.Keys, f, k);
    Sums.SetSumAgree(rows.Keys - {k}, f, g);
  }

  /** Replacing one row changes its client's total by the difference of the two contributions. */
  lemma TotalAfterReplace(rows: map<int, InvRow>, k: int, row: InvRow, c: int)
    requires k in rows
    ensures TotalInvested(rows[k := row], c) ==
      TotalInvested(rows, c)
      - (if rows[k].cliente_id == c && rows[k].ativo == 1 then rows[k].valor_investido else 0.0)
      + (if row.cliente_id == c && row.ativo == 1 then row.valor_investido else 0.0)
  {
    assert rows[k := row].Keys == rows.Keys;
    Sums.SetSumUpdate(rows.Keys, ActiveAmount(rows, c), ActiveAmount(rows[k := row], c), k);
  }

  /** A client without active investments totals 0.0: inactive rows and other clients' rows never count. */
  lemma TotalWithoutActive(rows: map<int, InvRow>, c: int)
    requires forall k :: k in rows ==> rows[k].cliente_id != c || rows[k].ativo != 1
    ensures TotalInvested(rows, c) == 0.0
  {
    var f := ActiveAmount(rows, c);
    assert forall k :: k in rows.Keys ==> f(k) == 0.0;
    Sums.SetSumZero(rows.Keys, f);
  }

  /** Deactivating an investment through `update` takes exactly its amount out of the total. */
  lemma DeactivateLowersTotal(rows: map<int, InvRow>, k: int)
    requires k in rows && rows[k].ativo == 1
    ensures
      var patch := EmptyUpdate.(ativo := Some(false));
      TotalInvested(rows[k := MergeRow(rows[k], patch)], rows[k].cliente_id) ==
        TotalInvested(rows, rows[k].cliente_id) - rows[k].valor_investido
  {
    TotalAfterReplace(rows, k, MergeRow(rows[k], EmptyUpdate.(ativo := Some(false))), rows[k].cliente_id);
  }

  /**
   * The worked example of the repository's tests: investments of 1000.0 and 500.0
   * (active) and 300.0 (inactive) for one client total 1500.0.
   */
  lemma ExampleTotalExcludesInactive(t1: int, t2: int, t3: int)
    ensures
      var rows := map[
        1 := InvRow(1, 1, ACOES, None, 1000.0, 0.0, 1, t1),
        2 := InvRow(2, 1, FUNDOS, None, 500.0, 0.0, 1, t2),
        3 := InvRow(3, 1, RENDA_FIXA, None, 300.0, 0.0, 0, t3)];
      TotalInvested(rows, 1) == 1500.0
  {
    var r1 := InvRow(1, 1, ACOES, None, 1000.0, 0.0, 1, t1);
    var r2 := InvRow(2, 1, FUNDOS, None, 500.0, 0.0, 1, t2);
    var r3 := InvRow(3, 1, RENDA_FIXA, None, 300.0, 0.0, 0, t3);
    TotalWithoutActive(map[], 1);
    TotalAfterInsert(map[], 1, r1, 1);
    TotalAfterInsert(map[1 := r1], 2, r2, 1);
    TotalAfterInsert(map[1 := r1, 2 := r2], 3, r3, 1);
    assert map[1 := r1][2 := r2] == map[1 := r1, 2 := r2];
    assert map[1 := r1, 2 := r2][3 := r3] == map[1 := r1, 2 := r2, 3 := r3];
  }
}
