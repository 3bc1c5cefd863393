/**
 * The client payload models. The storage service and the gateway declare the
 * same three shapes with the same field bounds, so one set of predicates
 * serves both: a create payload (`ClientBase`/`ClientCreate`), a patch whose
 * every field is optional (`ClientUpdate`) and a stored record (`ClientOut`).
 */
module ClientModels {
  import opened Wrappers

  const MaxNameLength: nat := 255

  /** `ClientCreate`: nome, telefone and correntista are required, the rest default to None. */
  datatype ClientCreate = ClientCreate(
    nome: string,
    telefone: int,
    correntista: bool,
    score_credito: Option<real>,
    saldo_cc: Option<real>)

  /** `ClientUpdate`: every field optional, None meaning "not given". */
  datatype ClientUpdate = ClientUpdate(
    nome: Option<string>,
    telefone: Option<int>,
    correntista: Option<bool>,
    score_credito: Option<real>,
    saldo_cc: Option<real>)

  /** `ClientOut`: the fields of `ClientBase` plus the integer id. */
  datatype Client = Client(
    id: int,
    nome: string,
    telefone: int,
    correntista: bool,
    score_credito: Option<real>,
    saldo_cc: Option<real>)

  /** The gateway's `ScoreOut`: both the balance and the derived score may be None. */
  datatype ScoreOut = ScoreOut(id: int, nome: string, saldo_cc: Option<real>, score_calculado: Option<real>)

  predicate ValidName(nome: string) {
    1 <= |nome| <= MaxNameLength
  }

  /** `ge=0` on an optional float: absent, or present and non-negative. */
  predicate ValidOptionalAmount(x: Option<real>) {
    x.None? || x.value >= 0.0
  }

  predicate ValidCreate(c: ClientCreate) {
    && ValidName(c.nome)
    && c.telefone >= 0
    && ValidOptionalAmount(c.score_credito)
    && ValidOptionalAmount(c.saldo_cc)
  }

  predicate ValidUpdate(u: ClientUpdate) {
    && (u.nome.Some? ==> ValidName(u.nome.value))
    && (u.telefone.Some? ==> u.telefone.value >= 0)
    && ValidOptionalAmount(u.score_credito)
    && ValidOptionalAmount(u.saldo_cc)
  }

  /** The `ClientBase` part of a record. */
  function BaseOf(c: Client): (b: ClientCreate)
    ensures b.nome == c.nome && b.telefone == c.telefone && b.correntista == c.correntista
    ensures b.score_credito == c.score_credito && b.saldo_cc == c.saldo_cc
  {
    ClientCreate(c.nome, c.telefone, c.correntista, c.score_credito, c.saldo_cc)
  }

  /** `ClientOut` validates exactly as its `ClientBase` part does. */
  predicate ValidClient(c: Client) {
    ValidCreate(BaseOf(c))
  }

  /** The patch that names every field of a create payload. */
  function UpdateOf(c: ClientCreate): (u: ClientUpdate)
    ensures u.nome == Some(c.nome) && u.telefone == Some(c.telefone) && u.correntista == Some(c.correntista)
    ensures u.score_credito == c.score_credito && u.saldo_cc == c.saldo_cc
  {
    ClientUpdate(Some(c.nome), Some(c.telefone), Some(c.correntista), c.score_credito, c.saldo_cc)
  }

  /** The empty patch: the default `ClientUpdate()`. */
  const EmptyUpdate: ClientUpdate := ClientUpdate(None, None, None, None, None)

  /**
   * The update bounds are the create bounds applied to the fields that are present:
   * a create payload is valid exactly when the patch naming all of its fields is.
   * Every update field may be absent, so the empty patch is valid.
   */
  lemma UpdateBoundsMatchCreate(c: ClientCreate)
    ensures ValidCreate(c) <==> ValidUpdate(UpdateOf(c))
    ensures ValidUpdate(EmptyUpdate)
  {
  }
}
