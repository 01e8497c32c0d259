/** The job entity and the static database methods of src/model/Trabalho.ts.
    The `trabalho` and `participacao` tables are maps keyed by their primary
    keys. A query that throws is a boolean parameter (`...Fails`): the
    methods catch it and return the control variable `queryResult`. */
module TrabalhoModel {
  import opened JsValues

  /** `split('T')[0]`: the text before the first 'T', or all of it when there
      is none. */
  function DatePart(s: string): (r: string)
    ensures r <= s
    ensures 'T' !in r
    ensures |r| < |s| ==> s[|r|] == 'T'
  {
    if s == [] || s[0] == 'T' then [] else [s[0]] + DatePart(s[1..])
  }

  /** On the text of `toISOString()` ("YYYY-MM-DDTHH:mm:ss.sssZ") the date
      part is the first ten characters. */
  lemma IsoDatePart(iso: string)
    requires |iso| == 24 && iso[10] == 'T'
    requires forall i :: 0 <= i < 10 ==> iso[i] != 'T'
    ensures DatePart(iso) == iso[..10]
  {
  }

  /** Taking the date part twice is the same as taking it once. */
  lemma DatePartIdempotent(s: string)
    ensures DatePart(DatePart(s)) == DatePart(s)
  {
  }

  /** A `Trabalho` object. */
  class Trabalho {
    var idTrabalho: int
    var nomeTrabalho: string
    var ongResponsavel: string
    var localizacao: string
    var dataInicio: Date
    var dataTermino: Date

    /** The id starts at 0 until the database assigns one. */
    constructor (nomeTrabalho: string, ongResponsavel: string, localizacao: string, dataInicio: Date, dataTermino: Date)
      ensures this.idTrabalho == 0
      ensures this.nomeTrabalho == nomeTrabalho && this.ongResponsavel == ongResponsavel
      ensures this.localizacao == localizacao
      ensures this.dataInicio == dataInicio && this.dataTermino == dataTermino
    {
      this.idTrabalho := 0;
      this.nomeTrabalho := nomeTrabalho;
      this.ongResponsavel := ongResponsavel;
      this.localizacao := localizacao;
      this.dataInicio := dataInicio;
      this.dataTermino := dataTermino;
    }

    method SetIdTrabalho(idTrabalho: int)
      modifies this
      ensures this.idTrabalho == idTrabalho
      ensures nomeTrabalho == old(nomeTrabalho) && ongResponsavel == old(ongResponsavel)
      ensures localizacao == old(localizacao)
      ensures dataInicio == old(dataInicio) && dataTermino == old(dataTermino)
    {
      this.idTrabalho := idTrabalho;
    }
  }

  /** One row of `trabalho`. */
  datatype TrabalhoRow = TrabalhoRow(
    nomeTrabalho: string,
    ongResponsavel: string,
    localizacao: string,
    dataInicio: Date,
    dataTermino: Date,
    statusTrabalho: bool)

  /** One row of `participacao`: the job and volunteer it links and its
      status flag. */
  datatype ParticipacaoRow = ParticipacaoRow(
    idTrabalho: int,
    idVoluntario: int,
    statusParticipacaoRegistro: bool)

  /** `UPDATE participacao SET status_participacao_registro = FALSE WHERE
      id_trabalho = id`. */
  function DeactivateParticipacoes(p: map<int, ParticipacaoRow>, id: int): (r: map<int, ParticipacaoRow>)
    ensures r.Keys == p.Keys
    ensures forall k :: k in p && p[k].idTrabalho == id ==> r[k] == p[k].(statusParticipacaoRegistro := false)
    ensures forall k :: k in p && p[k].idTrabalho != id ==> r[k] == p[k]
  {
    map k | k in p :: if p[k].idTrabalho == id then p[k].(statusParticipacaoRegistro := false) else p[k]
  }

  /** `UPDATE trabalho SET status_trabalho = FALSE WHERE id_trabalho = id`. */
  function DeactivateTrabalho(t: map<int, TrabalhoRow>, id: int): (r: map<int, TrabalhoRow>)
    ensures r.Keys == t.Keys
    ensures id in t ==> r[id] == t[id].(statusTrabalho := false)
    ensures forall k :: k in t && k != id ==> r[k] == t[k]
  {
    if id in t then t[id := t[id].(statusTrabalho := false)] else t
  }

  /** After the cascade no participation of the job is active; a second
      removal changes nothing and still finds the job, so it answers true
      again. */
  lemma RemovalIdempotent(t: map<int, TrabalhoRow>, p: map<int, ParticipacaoRow>, id: int)
    ensures forall k :: k in DeactivateParticipacoes(p, id) && DeactivateParticipacoes(p, id)[k].idTrabalho == id ==>
      !DeactivateParticipacoes(p, id)[k].statusParticipacaoRegistro
    ensures DeactivateParticipacoes(DeactivateParticipacoes(p, id), id) == DeactivateParticipacoes(p, id)
    ensures DeactivateTrabalho(DeactivateTrabalho(t, id), id) == DeactivateTrabalho(t, id)
    ensures id in DeactivateTrabalho(t, id) <==> id in t
  {
    var once := DeactivateParticipacoes(p, id);
    var twice := DeactivateParticipacoes(once, id);
    assert twice.Keys == once.Keys;
    forall k | k in once ensures twice[k] == once[k] {
      assert once[k].idTrabalho == p[k].idTrabalho;
    }
  }

  /** The row `atualizarCadastrotrabalho` writes: text upper-cased, dates cut
      to their date part, the status flag kept. */
  function EditedRow(row: TrabalhoRow, nome: string, ong: string, localizacao: string, dataInicio: Date, dataTermino: Date): TrabalhoRow {
    TrabalhoRow(
      ToUpperCase(nome), ToUpperCase(ong), ToUpperCase(localizacao),
      DatePart(dataInicio), DatePart(dataTermino), row.statusTrabalho)
  }

  /** The stored text of an edited row holds no lower-case ASCII letter,
      keeps the length of the input, and re-submitting the stored values
      changes nothing. */
  lemma EditedRowNormalised(row: TrabalhoRow, nome: string, ong: string, localizacao: string, dataInicio: Date, dataTermino: Date)
    ensures var e := EditedRow(row, nome, ong, localizacao, dataInicio, dataTermino);
      |e.nomeTrabalho| == |nome| && |e.ongResponsavel| == |ong| && |e.localizacao| == |localizacao|
      && (forall i :: 0 <= i < |e.nomeTrabalho| ==> !IsLowerAscii(e.nomeTrabalho[i]))
      && (forall i :: 0 <= i < |e.ongResponsavel| ==> !IsLowerAscii(e.ongResponsavel[i]))
      && (forall i :: 0 <= i < |e.localizacao| ==> !IsLowerAscii(e.localizacao[i]))
      && 'T' !in e.dataInicio && 'T' !in e.dataTermino
      && e.statusTrabalho == row.statusTrabalho
    ensures var e := EditedRow(row, nome, ong, localizacao, dataInicio, dataTermino);
      EditedRow(e, e.nomeTrabalho, e.ongResponsavel, e.localizacao, e.dataInicio, e.dataTermino) == e
  {
    ToUpperCaseAt(nome);
    ToUpperCaseAt(ong);
    ToUpperCaseAt(localizacao);
    ToUpperCaseIdempotent(nome);
    ToUpperCaseIdempotent(ong);
    ToUpperCaseIdempotent(localizacao);
    DatePartIdempotent(dataInicio);
    DatePartIdempotent(dataTermino);
  }

  /** The database state the static methods of `Trabalho` work on;
      `nextTrabalhoId` is the next value of the serial key. */
  class Database {
    var trabalho: map<int, TrabalhoRow>
    var participacao: map<int, ParticipacaoRow>
    var nextTrabalhoId: int

    ghost predicate Valid()
      reads this
    {
      forall id :: id in trabalho ==> id < nextTrabalhoId
    }

    constructor ()
      ensures Valid() && trabalho == map[] && participacao == map[] && nextTrabalhoId == 1
    {
      trabalho := map[];
      participacao := map[];
      nextTrabalhoId := 1;
    }

    /** `listagemTrabalhos`: one new object per row (active or not), carrying
        the row's id and columns, or null when the query throws. The SELECT
        has no ORDER BY: the model visits the rows in any order. */
    method ListagemTrabalhos(queryFails: bool) returns (lista: Option<seq<Trabalho>>)
      ensures queryFails <==> lista.None?
      ensures lista.Some? ==> forall i :: 0 <= i < |lista.value| ==>
        fresh(lista.value[i]) && lista.value[i].idTrabalho in trabalho
        && Describes(lista.value[i], trabalho[lista.value[i].idTrabalho])
      ensures lista.Some? ==> forall id :: id in trabalho ==>
        exists i :: 0 <= i < |lista.value| && lista.value[i].idTrabalho == id
      ensures lista.Some? ==> forall i, j :: 0 <= i < j < |lista.value| ==>
        lista.value[i].idTrabalho != lista.value[j].idTrabalho
    {
      if queryFails {
        return None;
      }
      var listaDeTrabalhos: seq<Trabalho> := [];
      ghost var ids: seq<int> := [];
      var pendentes := trabalho.Keys;
      while pendentes != {}
        invariant pendentes <= trabalho.Keys
        invariant |ids| == |listaDeTrabalhos|
        invariant forall i :: 0 <= i < |listaDeTrabalhos| ==>
          fresh(listaDeTrabalhos[i]) && listaDeTrabalhos[i].idTrabalho == ids[i]
          && ids[i] in trabalho && ids[i] !in pendentes
          && Describes(listaDeTrabalhos[i], trabalho[ids[i]])
        invariant forall id :: id in trabalho && id !in pendentes ==> id in ids
        invariant forall i, j :: 0 <= i < j < |ids| ==> ids[i] != ids[j]
        decreases pendentes
      {
        ghost var some := PickFrom(pendentes);
        var id :| id in pendentes;
        var linha := trabalho[id];
        var novoTrabalho := new Trabalho(linha.nomeTrabalho, linha.ongResponsavel, linha.localizacao, linha.dataInicio, linha.dataTermino);
        novoTrabalho.SetIdTrabalho(id);
        listaDeTrabalhos := listaDeTrabalhos + [novoTrabalho];
        ids := ids + [id];
        pendentes := pendentes - {id};
      }
      forall id | id in trabalho
        ensures exists i :: 0 <= i < |listaDeTrabalhos| && listaDeTrabalhos[i].idTrabalho == id
      {
        var i :| 0 <= i < |ids| && ids[i] == id;
        assert listaDeTrabalhos[i].idTrabalho == id;
      }
      lista := Some(listaDeTrabalhos);
    }

    /** `cadastroTrabalho`: inserts a row with a new serial id and answers
        true, or answers false and inserts nothing when the INSERT throws.
        The INSERT leaves `status_trabalho` to its default, active. */
    method CadastroTrabalho(t: Trabalho, insertFails: bool) returns (ok: bool)
      requires Valid()
      modifies this
      ensures Valid() && participacao == old(participacao)
      ensures ok == !insertFails
      ensures insertFails ==> trabalho == old(trabalho) && nextTrabalhoId == old(nextTrabalhoId)
      ensures !insertFails ==>
        old(nextTrabalhoId) !in old(trabalho)
        && trabalho == old(trabalho)[old(nextTrabalhoId) := TrabalhoRow(t.nomeTrabalho, t.ongResponsavel, t.localizacao, t.dataInicio, t.dataTermino, true)]
        && nextTrabalhoId == old(nextTrabalhoId) + 1
    {
      if insertFails {
        return false;
      }
      var id := nextTrabalhoId;
      trabalho := trabalho[id := TrabalhoRow(t.nomeTrabalho, t.ongResponsavel, t.localizacao, t.dataInicio, t.dataTermino, true)];
      nextTrabalhoId := nextTrabalhoId + 1;
      // A one-row INSERT reports rowCount 1, so the `rowCount != 0` test holds.
      ok := true;
    }

    /** `removerTrabalho`: deactivate the job's participations, then the job.
        The answer is whether the second UPDATE touched a row. A throw in the
        first UPDATE leaves everything as it was; a throw in the second keeps
        the participations deactivated (no rollback). */
    method RemoverTrabalho(id: int, participacaoFails: bool, trabalhoFails: bool) returns (queryResult: bool)
      requires Valid()
      modifies this
      ensures Valid() && nextTrabalhoId == old(nextTrabalhoId)
      ensures participacaoFails ==>
        !queryResult && participacao == old(participacao) && trabalho == old(trabalho)
      ensures !participacaoFails ==> participacao == DeactivateParticipacoes(old(participacao), id)
      ensures !participacaoFails && trabalhoFails ==> !queryResult && trabalho == old(trabalho)
      ensures !participacaoFails && !trabalhoFails ==>
        trabalho == DeactivateTrabalho(old(trabalho), id) && queryResult == (id in old(trabalho))
    {
      queryResult := false;
      if participacaoFails {
        return queryResult;
      }
      participacao := DeactivateParticipacoes(participacao, id);
      if trabalhoFails {
        return queryResult;
      }
      var rowCount := if id in trabalho then 1 else 0;
      trabalho := DeactivateTrabalho(trabalho, id);
      if rowCount != 0 {
        queryResult := true;
      }
    }

    /** `atualizarCadastrotrabalho`: the row with the object's id becomes its
        edited version and the answer is true; no row with that id, or a
        throw, answers false and changes nothing. */
    method AtualizarCadastroTrabalho(t: Trabalho, updateFails: bool) returns (queryResult: bool)
      requires Valid()
      modifies this
      ensures Valid() && participacao == old(participacao) && nextTrabalhoId == old(nextTrabalhoId)
      ensures queryResult <==> !updateFails && t.idTrabalho in old(trabalho)
      ensures queryResult ==>
        trabalho == old(trabalho)[t.idTrabalho := EditedRow(old(trabalho)[t.idTrabalho],
          t.nomeTrabalho, t.ongResponsavel, t.localizacao, t.dataInicio, t.dataTermino)]
      ensures !queryResult ==> trabalho == old(trabalho)
    {
      queryResult := false;
      if updateFails {
        return queryResult;
      }
      if t.idTrabalho in trabalho {
        trabalho := trabalho[t.idTrabalho := EditedRow(trabalho[t.idTrabalho],
          t.nomeTrabalho, t.ongResponsavel, t.localizacao, t.dataInicio, t.dataTermino)];
        queryResult := true;
      }
    }
  }

  /** The object carries the row's columns. */
  predicate Describes(o: Trabalho, row: TrabalhoRow)
    reads o
  {
    o.nomeTrabalho == row.nomeTrabalho && o.ongResponsavel == row.ongResponsavel
    && o.localizacao == row.localizacao
    && o.dataInicio == row.dataInicio && o.dataTermino == row.dataTermino
  }
}
