/**
 * The storage service's client repository: CRUD over the `clients` table.
 * The table is the map from id to the row the database holds; `lastId` is the
 * AUTOINCREMENT counter, so a new id is always larger than every id ever used.
 * `telefone` carries a UNIQUE constraint: an INSERT or UPDATE that would repeat
 * another row's phone raises an integrity error and changes nothing.
 */
module ClientRepository {
  import opened Wrappers
  import opened ClientModels
  import Sums
  import opened SqlColumns

  /** The database's refusal of a write that breaks a constraint. */
  datatype DbError = IntegrityError

  /** A row as the driver returns it; `correntista` is stored as an integer. */
  datatype Row = Row(
    id: int,
    nome: string,
    telefone: int,
    correntista: int,
    score_credito: Option<real>,
    saldo_cc: Option<real>)

  /** `_row_to_client`: the integer column read back as a boolean; NULL amounts stay None. */
  function RowToClient(row: Row): Client {
    Client(row.id, row.nome, row.telefone, row.correntista != 0, row.score_credito, row.saldo_cc)
  }

  /** The row `create_client`'s INSERT writes; absent optional fields are written as NULL. */
  function InsertRow(id: int, data: ClientCreate): Row {
    Row(id, data.nome, data.telefone, BoolColumn(data.correntista), data.score_credito, data.saldo_cc)
  }

  /** The five columns `update_client`'s UPDATE writes; the id is the row's own. */
  function UpdateRow(row: Row, merged: Client): Row {
    Row(row.id, merged.nome, merged.telefone, BoolColumn(merged.correntista), merged.score_credito, merged.saldo_cc)
  }

  /** `{**current, **{k: v for k, v in data.items() if v is not None}}`. */
  function Merge(current: Client, patch: ClientUpdate): Client {
    Client(
      current.id,
      patch.nome.GetOr(current.nome),
      patch.telefone.GetOr(current.telefone),
      patch.correntista.GetOr(current.correntista),
      if patch.score_credito.Some? then patch.score_credito else current.score_credito,
      if patch.saldo_cc.Some? then patch.saldo_cc else current.saldo_cc)
  }

  /** Whether a row other than `except` already holds this phone number. */
  predicate PhoneTaken(rows: map<int, Row>, telefone: int, except: Option<int>) {
    exists k :: k in rows && Some(k) != except && rows[k].telefone == telefone
  }

  /** The UNIQUE constraint on `telefone`. */
  ghost predicate UniquePhones(rows: map<int, Row>) {
    forall a, b :: a in rows && b in rows && a != b ==> rows[a].telefone != rows[b].telefone
  }

  /**
   * Every stored record within the payload bounds. The repository does not check them
   * itself; the routes validate every payload before calling it.
   */
  ghost predicate RecordsValid(rows: map<int, Row>) {
    forall id :: id in rows ==> ValidClient(RowToClient(rows[id]))
  }

  /** SQL's `MAX(id)`: NULL on an empty table, otherwise the largest id. */
  method MaxId(ids: set<int>) returns (m: Option<int>)
    ensures m.None? <==> ids == {}
    ensures m.Some? ==> m.value in ids && forall k :: k in ids ==> k <= m.value
  {
    m := None;
    var rest := ids;
    while rest != {}
      invariant rest <= ids
      invariant m.None? <==> rest == ids
      invariant m.Some? ==> m.value in ids && forall j :: j in ids && j !in rest ==> j <= m.value
      decreases rest
    {
      ghost var some := Sums.MemberOf(rest);
      var k :| k in rest;
      if m.None? || k > m.value {
        m := Some(k);
      }
      rest := rest - {k};
    }
  }

  class ClientTable {
    var rows: map<int, Row>
    /** The AUTOINCREMENT counter: the largest id ever handed out. */
    var lastId: int

    ghost predicate Valid()
      reads this
    {
      && lastId >= 0
      && (forall id :: id in rows ==> 0 < id <= lastId && rows[id].id == id)
      && (forall id :: id in rows ==> rows[id].correntista == 0 || rows[id].correntista == 1)
      && UniquePhones(rows)
    }

    /** `init_db` on a fresh database: the table exists and is empty. */
    constructor ()
      ensures Valid() && rows == map[] && lastId == 0
    {
      rows := map[];
      lastId := 0;
    }

    /** `get_client`: None exactly when no row has the id, otherwise that row's record. */
    function GetClient(id: int): (r: Option<Client>)
      reads this
      ensures r.None? <==> id !in rows
      ensures Valid() && r.Some? ==> r.value.id == id
    {
      if id in rows then Some(RowToClient(rows[id])) else None
    }

    /** `list_clients`: every row's record exactly once, in no particular order. */
    method ListClients() returns (cs: seq<Client>)
      requires Valid()
      ensures |cs| == |rows.Keys|
      ensures forall i :: 0 <= i < |cs| ==> cs[i].id in rows && cs[i] == RowToClient(rows[cs[i].id])
      ensures forall id :: id in rows ==> exists i :: 0 <= i < |cs| && cs[i].id == id
      ensures forall i, j :: 0 <= i < j < |cs| ==> cs[i].id != cs[j].id
    {
      cs := [];
      var rest := rows.Keys;
      while rest != {}
        invariant rest <= rows.Keys
        invariant |cs| + |rest| == |rows.Keys|
        invariant forall i :: 0 <= i < |cs| ==> cs[i].id in rows && cs[i].id !in rest && cs[i] == RowToClient(rows[cs[i].id])
        invariant forall id :: id in rows && id !in rest ==> exists i :: 0 <= i < |cs| && cs[i].id == id
        invariant forall i, j :: 0 <= i < j < |cs| ==> cs[i].id != cs[j].id
        decreases rest
      {
        ghost var some := Sums.MemberOf(rest);
        var id :| id in rest;
        ghost var before := cs;
        cs := cs + [RowToClient(rows[id])];
        assert forall i :: 0 <= i < |before| ==> cs[i] == before[i];
        assert cs[|before|].id == id;
        rest := rest - {id};
      }
    }

    /**
     * `create_client`: insert the payload, then read back the row with the largest id.
     * Under AUTOINCREMENT that row is the new one, so the `None` return of the source
     * cannot happen after a successful insert. A repeated phone is refused.
     */
    method CreateClient(data: ClientCreate) returns (r: Result<Client, DbError>)
      requires Valid()
      modifies this
      ensures Valid()
      ensures PhoneTaken(old(rows), data.telefone, None) ==>
        r == Err(IntegrityError) && rows == old(rows) && lastId == old(lastId)
      ensures !PhoneTaken(old(rows), data.telefone, None) ==>
        && lastId == old(lastId) + 1
        && rows == old(rows)[lastId := InsertRow(lastId, data)]
        && r == Ok(Client(lastId, data.nome, data.telefone, data.correntista, data.score_credito, data.saldo_cc))
      ensures r.Ok? ==> r.value.id !in old(rows) && forall k :: k in old(rows) ==> k < r.value.id
      ensures r.Ok? ==> GetClient(r.value.id) == Some(r.value) && BaseOf(r.value) == data
      ensures RecordsValid(old(rows)) && ValidCreate(data) ==> RecordsValid(rows)
    {
      if PhoneTaken(rows, data.telefone, None) {
        return Err(IntegrityError);
      }
      lastId := lastId + 1;
      rows := rows[lastId := InsertRow(lastId, data)];
      assert lastId in rows.Keys;
      var newId := MaxId(rows.Keys);
      assert newId == Some(lastId);
      r := Ok(GetClient(newId.value).value);
    }

    /**
     * `update_client`: None for an unknown id; otherwise the merged record is written
     * back through the five data columns and read again. A phone that another row
     * already holds is refused and nothing changes.
     */
    method UpdateClient(id: int, patch: ClientUpdate) returns (r: Result<Option<Client>, DbError>)
      requires Valid()
      modifies this
      ensures Valid() && lastId == old(lastId)
      ensures id !in old(rows) ==> r == Ok(None) && rows == old(rows)
      ensures id in old(rows) && PhoneTaken(old(rows), Merge(RowToClient(old(rows)[id]), patch).telefone, Some(id)) ==>
        r == Err(IntegrityError) && rows == old(rows)
      ensures id in old(rows) && !PhoneTaken(old(rows), Merge(RowToClient(old(rows)[id]), patch).telefone, Some(id)) ==>
        && rows == old(rows)[id := UpdateRow(old(rows)[id], Merge(RowToClient(old(rows)[id]), patch))]
        && r == Ok(Some(Merge(RowToClient(old(rows)[id]), patch)))
      ensures RecordsValid(old(rows)) && ValidUpdate(patch) ==> RecordsValid(rows)
    {
      var current := GetClient(id);
      if current.None? {
        return Ok(None);
      }
      var merged := Merge(current.value, patch);
      if PhoneTaken(rows, merged.telefone, Some(id)) {
        return Err(IntegrityError);
      }
      if RecordsValid(rows) && ValidUpdate(patch) {
        MergePreservesValidity(current.value, patch);
      }
      UpdatedRecordRoundTrip(rows[id], merged);
      rows := rows[id := UpdateRow(rows[id], merged)];
      r := Ok(GetClient(id));
    }

    /** `delete_client`: true exactly when a row had the id; afterwards no row has it. */
    method DeleteClient(id: int) returns (existed: bool)
      requires Valid()
      modifies this
      ensures Valid() && lastId == old(lastId)
      ensures existed <==> id in old(rows)
      ensures rows == old(rows) - {id}
      ensures GetClient(id).None?
      ensures RecordsValid(old(rows)) ==> RecordsValid(rows)
    {
      existed := id in rows;
      rows := rows - {id};
    }
  }

  /** The record a create returns validates like the payload it came from. */
  lemma CreatedRecordRoundTrip(id: int, data: ClientCreate)
    ensures RowToClient(InsertRow(id, data)) == Client(id, data.nome, data.telefone, data.correntista, data.score_credito, data.saldo_cc)
    ensures BaseOf(RowToClient(InsertRow(id, data))) == data
    ensures ValidClient(RowToClient(InsertRow(id, data))) <==> ValidCreate(data)
  {
  }

  /** Writing a merged record back and reading it again gives the merged record. */
  lemma UpdatedRecordRoundTrip(row: Row, merged: Client)
    requires merged.id == row.id
    ensures RowToClient(UpdateRow(row, merged)) == merged
  {
  }

  /**
   * The partial merge: a field that is absent from the patch keeps its current value,
   * a present one replaces it, the id never changes, and a stored optional amount can
   * never be cleared to None by an update.
   */
  lemma MergeFieldwise(current: Client, patch: ClientUpdate)
    ensures Merge(current, patch).id == current.id
    ensures patch.nome.None? ==> Merge(current, patch).nome == current.nome
    ensures patch.nome.Some? ==> Merge(current, patch).nome == patch.nome.value
    ensures patch.telefone.None? ==> Merge(current, patch).telefone == current.telefone
    ensures patch.telefone.Some? ==> Merge(current, patch).telefone == patch.telefone.value
    ensures patch.correntista.None? ==> Merge(current, patch).correntista == current.correntista
    ensures patch.correntista.Some? ==> Merge(current, patch).correntista == patch.correntista.value
    ensures patch.score_credito.None? ==> Merge(current, patch).score_credito == current.score_credito
    ensures patch.score_credito.Some? ==> Merge(current, patch).score_credito == patch.score_credito
    ensures patch.saldo_cc.None? ==> Merge(current, patch).saldo_cc == current.saldo_cc
    ensures patch.saldo_cc.Some? ==> Merge(current, patch).saldo_cc == patch.saldo_cc
    ensures current.score_credito.Some? ==> Merge(current, patch).score_credito.Some?
    ensures current.saldo_cc.Some? ==> Merge(current, patch).saldo_cc.Some?
  {
  }

  /** The empty patch changes nothing, and applying the same patch twice is applying it once. */
  lemma MergeIdentityAndIdempotence(current: Client, patch: ClientUpdate)
    ensures Merge(current, EmptyUpdate) == current
    ensures Merge(Merge(current, patch), patch) == Merge(current, patch)
  {
  }

  /** A valid patch applied to a valid record gives a valid record. */
  lemma MergePreservesValidity(current: Client, patch: ClientUpdate)
    requires ValidClient(current) && ValidUpdate(patch)
    ensures ValidClient(Merge(current, patch))
  {
  }
}
