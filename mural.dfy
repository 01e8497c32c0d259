/** The job board entry and the static database methods of
    src/model/MuralTrabalhos.ts. The `muralTrabalhos` table is a map keyed by
    `id_mural_trabalhos`; a query that throws is a boolean parameter. */
module MuralModel {
  import opened JsValues

  /** A `MuralTrabalhos` object. */
  class MuralTrabalhos {
    var idMuralTrabalhos: int
    var nomeTrabalho: string
    var ongResponsavel: string
    var totalVoluntarios: int
    var dataEncerramento: Date
    var statusMuralTrabalho: bool

    /** A new entry has id 0 until the database assigns one, and is active. */
    constructor (nomeTrabalho: string, ongResponsavel: string, totalVoluntarios: int, dataEncerramento: Date)
      ensures this.idMuralTrabalhos == 0 && this.statusMuralTrabalho
      ensures this.nomeTrabalho == nomeTrabalho && this.ongResponsavel == ongResponsavel
      ensures this.totalVoluntarios == totalVoluntarios && this.dataEncerramento == dataEncerramento
    {
      this.idMuralTrabalhos := 0;
      this.statusMuralTrabalho := true;
      this.nomeTrabalho := nomeTrabalho;
      this.ongResponsavel := ongResponsavel;
      this.totalVoluntarios := totalVoluntarios;
      this.dataEncerramento := dataEncerramento;
    }

    method SetIdMuralTrabalhos(idMuralTrabalhos: int)
      modifies this
      ensures this.idMuralTrabalhos == idMuralTrabalhos
      ensures nomeTrabalho == old(nomeTrabalho) && ongResponsavel == old(ongResponsavel)
      ensures totalVoluntarios == old(totalVoluntarios) && dataEncerramento == old(dataEncerramento)
      ensures statusMuralTrabalho == old(statusMuralTrabalho)
    {
      this.idMuralTrabalhos := idMuralTrabalhos;
    }

    method SetNomeTrabalho(nomeTrabalho: string)
      modifies this
      ensures this.nomeTrabalho == nomeTrabalho
      ensures idMuralTrabalhos == old(idMuralTrabalhos) && ongResponsavel == old(ongResponsavel)
      ensures totalVoluntarios == old(totalVoluntarios) && dataEncerramento == old(dataEncerramento)
      ensures statusMuralTrabalho == old(statusMuralTrabalho)
    {
      this.nomeTrabalho := nomeTrabalho;
    }

    method SetOngResponsavel(ongResponsavel: string)
      modifies this
      ensures this.ongResponsavel == ongResponsavel
      ensures idMuralTrabalhos == old(idMuralTrabalhos) && nomeTrabalho == old(nomeTrabalho)
      ensures totalVoluntarios == old(totalVoluntarios) && dataEncerramento == old(dataEncerramento)
      ensures statusMuralTrabalho == old(statusMuralTrabalho)
    {
      this.ongResponsavel := ongResponsavel;
    }

    method SetTotalVoluntarios(totalVoluntarios: int)
      modifies this
      ensures this.totalVoluntarios == totalVoluntarios
      ensures idMuralTrabalhos == old(idMuralTrabalhos) && nomeTrabalho == old(nomeTrabalho)
      ensures ongResponsavel == old(ongResponsavel) && dataEncerramento == old(dataEncerramento)
      ensures statusMuralTrabalho == old(statusMuralTrabalho)
    {
      this.totalVoluntarios := totalVoluntarios;
    }

    method SetDataEncerramento(dataEncerramento: Date)
      modifies this
      ensures this.dataEncerramento == dataEncerramento
      ensures idMuralTrabalhos == old(idMuralTrabalhos) && nomeTrabalho == old(nomeTrabalho)
      ensures ongResponsavel == old(ongResponsavel) && totalVoluntarios == old(totalVoluntarios)
      ensures statusMuralTrabalho == old(statusMuralTrabalho)
    {
      this.dataEncerramento := dataEncerramento;
    }

    method SetStatusMuralTrabalho(statusMuralTrabalho: bool)
      modifies this
      ensures this.statusMuralTrabalho == statusMuralTrabalho
      ensures idMuralTrabalhos == old(idMuralTrabalhos) && nomeTrabalho == old(nomeTrabalho)
      ensures ongResponsavel == old(ongResponsavel) && totalVoluntarios == old(totalVoluntarios)
      ensures dataEncerramento == old(dataEncerramento)
    {
      this.statusMuralTrabalho := statusMuralTrabalho;
    }
  }

  /** One row of `muralTrabalhos`. */
  datatype MuralRow = MuralRow(
    nomeTrabalho: string,
    ongResponsavel: string,
    totalVoluntarios: int,
    dataEncerramento: Date,
    statusMuralTrabalho: bool)

  /** `WHERE status_mural_trabalho`: the ids of the active rows. */
  function ActiveIds(rows: map<int, MuralRow>): (ids: set<int>)
    ensures forall id :: id in ids <==> id in rows && rows[id].statusMuralTrabalho
  {
    set id | id in rows && rows[id].statusMuralTrabalho
  }

  /** The row `atualizarTrabalhoMural` writes for an entry: its status, its
      text upper-cased, its count and date as they are. */
  function WrittenRow(nome: string, ong: string, total: int, data: Date, status: bool): MuralRow {
    MuralRow(ToUpperCase(nome), ToUpperCase(ong), total, data, status)
  }

  /** Partner of the update and the listing: after writing an entry, its id is
      listed exactly when the entry's status is true, and no other id changes
      side. */
  lemma WrittenRowListedIffActive(rows: map<int, MuralRow>, id: int, nome: string, ong: string, total: int, data: Date, status: bool)
    requires id in rows
    ensures ActiveIds(rows[id := WrittenRow(nome, ong, total, data, status)]) ==
      if status then ActiveIds(rows) + {id} else ActiveIds(rows) - {id}
  {
    var after := rows[id := WrittenRow(nome, ong, total, data, status)];
    forall k ensures k in ActiveIds(after) <==> k in (if status then ActiveIds(rows) + {id} else ActiveIds(rows) - {id}) {
      if k == id {
        assert after[k].statusMuralTrabalho == status;
      } else {
        assert k in after <==> k in rows;
      }
    }
  }

  /** A column value as node-postgres hands it back. */
  datatype Column = Text(text: string) | Number(number: int) | Flag(flag: bool)

  /** The object node-postgres builds for a row: one property per column,
      named as the column is (the UPDATE names them in snake_case). */
  function RowObject(id: int, row: MuralRow): map<string, Column> {
    map[
      "id_mural_trabalhos" := Number(id),
      "nome_trabalho" := Text(row.nomeTrabalho),
      "ong_responsavel" := Text(row.ongResponsavel),
      "total_voluntarios" := Number(row.totalVoluntarios),
      "data_encerramento" := Text(row.dataEncerramento),
      "status_mural_trabalho" := Flag(row.statusMuralTrabalho)]
  }

  /** Reading a property: `undefined` when the object has none by that name. */
  function Property(obj: map<string, Column>, key: string): Option<Column> {
    if key in obj then Some(obj[key]) else None
  }

  /** The four constructor arguments of `listarTrabalhosMural` as written:
      the properties `nomeTrabalho`, `ongResponsavel`, `totalVoluntarios` and
      `dataEncerramento` of the row object. */
  function ListedArgumentsAsWritten(id: int, row: MuralRow): seq<Option<Column>> {
    var obj := RowObject(id, row);
    [Property(obj, "nomeTrabalho"), Property(obj, "ongResponsavel"),
     Property(obj, "totalVoluntarios"), Property(obj, "dataEncerramento")]
  }

  /** The same arguments read from the columns the row actually has. */
  function ListedArguments(id: int, row: MuralRow): seq<Option<Column>> {
    var obj := RowObject(id, row);
    [Property(obj, "nome_trabalho"), Property(obj, "ong_responsavel"),
     Property(obj, "total_voluntarios"), Property(obj, "data_encerramento")]
  }

  /** As written, every listed entry is built from four `undefined`s; read by
      column name, the entry carries the row's values. */
  lemma ListingReadsMissingProperties(id: int, row: MuralRow)
    ensures ListedArgumentsAsWritten(id, row) == [None, None, None, None]
    ensures ListedArguments(id, row) == [
      Some(Text(row.nomeTrabalho)), Some(Text(row.ongResponsavel)),
      Some(Number(row.totalVoluntarios)), Some(Text(row.dataEncerramento))]
  {
    var obj := RowObject(id, row);
    assert "nomeTrabalho" !in obj.Keys by {
      assert "nomeTrabalho"[4] != "nome_trabalho"[4];
      assert "nomeTrabalho"[0] != "id_mural_trabalhos"[0];
      assert "nomeTrabalho"[0] != "ong_responsavel"[0];
      assert "nomeTrabalho"[0] != "total_voluntarios"[0];
      assert "nomeTrabalho"[0] != "data_encerramento"[0];
      assert "nomeTrabalho"[0] != "status_mural_trabalho"[0];
    }
    assert "ongResponsavel" !in obj.Keys by {
      assert "ongResponsavel"[3] != "ong_responsavel"[3];
      assert "ongResponsavel"[0] != "id_mural_trabalhos"[0];
      assert "ongResponsavel"[0] != "nome_trabalho"[0];
      assert "ongResponsavel"[0] != "total_voluntarios"[0];
      assert "ongResponsavel"[0] != "data_encerramento"[0];
      assert "ongResponsavel"[0] != "status_mural_trabalho"[0];
    }
    assert "totalVoluntarios" !in obj.Keys by {
      assert "totalVoluntarios"[5] != "total_voluntarios"[5];
      assert "totalVoluntarios"[0] != "id_mural_trabalhos"[0];
      assert "totalVoluntarios"[0] != "nome_trabalho"[0];
      assert "totalVoluntarios"[0] != "ong_responsavel"[0];
      assert "totalVoluntarios"[0] != "data_encerramento"[0];
      assert "totalVoluntarios"[0] != "status_mural_trabalho"[0];
    }
    assert "dataEncerramento" !in obj.Keys by {
      assert "dataEncerramento"[4] != "data_encerramento"[4];
      assert "dataEncerramento"[0] != "id_mural_trabalhos"[0];
      assert "dataEncerramento"[0] != "nome_trabalho"[0];
      assert "dataEncerramento"[0] != "ong_responsavel"[0];
      assert "dataEncerramento"[0] != "total_voluntarios"[0];
      assert "dataEncerramento"[0] != "status_mural_trabalho"[0];
    }
  }

  /** The entry carries the row's columns. */
  predicate Describes(o: MuralTrabalhos, row: MuralRow)
    reads o
  {
    o.nomeTrabalho == row.nomeTrabalho && o.ongResponsavel == row.ongResponsavel
    && o.totalVoluntarios == row.totalVoluntarios && o.dataEncerramento == row.dataEncerramento
  }

  /** The database state the static methods of `MuralTrabalhos` work on. */
  class MuralDatabase {
    var muralTrabalhos: map<int, MuralRow>

    constructor ()
      ensures muralTrabalhos == map[]
    {
      muralTrabalhos := map[];
    }

    /** `listarTrabalhosMural`, with each entry built from its row's columns:
        one new active entry per active row, carrying the row's id, or null
        when the query throws. The SELECT has no ORDER BY: the model visits
        the rows in any order. */
    method ListarTrabalhosMural(queryFails: bool) returns (lista: Option<seq<MuralTrabalhos>>)
      ensures queryFails <==> lista.None?
      ensures lista.Some? ==> forall i :: 0 <= i < |lista.value| ==>
        fresh(lista.value[i]) && lista.value[i].idMuralTrabalhos in ActiveIds(muralTrabalhos)
        && lista.value[i].statusMuralTrabalho
        && Describes(lista.value[i], muralTrabalhos[lista.value[i].idMuralTrabalhos])
      ensures lista.Some? ==> forall id :: id in ActiveIds(muralTrabalhos) ==>
        exists i :: 0 <= i < |lista.value| && lista.value[i].idMuralTrabalhos == id
      ensures lista.Some? ==> forall i, j :: 0 <= i < j < |lista.value| ==>
        lista.value[i].idMuralTrabalhos != lista.value[j].idMuralTrabalhos
    {
      if queryFails {
        return None;
      }
      var listaDeTrabalhosMural: seq<MuralTrabalhos> := [];
      ghost var ids: seq<int> := [];
      var pendentes := ActiveIds(muralTrabalhos);
      while pendentes != {}
        invariant pendentes <= ActiveIds(muralTrabalhos)
        invariant |ids| == |listaDeTrabalhosMural|
        invariant forall i :: 0 <= i < |listaDeTrabalhosMural| ==>
          fresh(listaDeTrabalhosMural[i]) && listaDeTrabalhosMural[i].idMuralTrabalhos == ids[i]
          && ids[i] in ActiveIds(muralTrabalhos) && ids[i] !in pendentes
          && listaDeTrabalhosMural[i].statusMuralTrabalho
          && Describes(listaDeTrabalhosMural[i], muralTrabalhos[ids[i]])
        invariant forall id :: id in ActiveIds(muralTrabalhos) && id !in pendentes ==> id in ids
        invariant forall i, j :: 0 <= i < j < |ids| ==> ids[i] != ids[j]
        decreases pendentes
      {
        ghost var some := PickFrom(pendentes);
        var id :| id in pendentes;
        var linha := muralTrabalhos[id];
        var novoTrabalho := new MuralTrabalhos(linha.nomeTrabalho, linha.ongResponsavel, linha.totalVoluntarios, linha.dataEncerramento);
        novoTrabalho.SetIdMuralTrabalhos(id);
        listaDeTrabalhosMural := listaDeTrabalhosMural + [novoTrabalho];
        ids := ids + [id];
        pendentes := pendentes - {id};
      }
      forall id | id in ActiveIds(muralTrabalhos)
        ensures exists i :: 0 <= i < |listaDeTrabalhosMural| && listaDeTrabalhosMural[i].idMuralTrabalhos == id
      {
        var i :| 0 <= i < |ids| && ids[i] == id;
        assert listaDeTrabalhosMural[i].idMuralTrabalhos == id;
      }
      lista := Some(listaDeTrabalhosMural);
    }

    /** `atualizarTrabalhoMural`: the row with the entry's id takes the
        entry's status, upper-cased name and NGO, count and date, and the
        answer is true; no such row, or a throw, answers false and changes
        nothing. */
    method AtualizarTrabalhoMural(m: MuralTrabalhos, updateFails: bool) returns (queryResult: bool)
      modifies this
      ensures queryResult <==> !updateFails && m.idMuralTrabalhos in old(muralTrabalhos)
      ensures queryResult ==>
        muralTrabalhos == old(muralTrabalhos)[m.idMuralTrabalhos := WrittenRow(
          m.nomeTrabalho, m.ongResponsavel, m.totalVoluntarios, m.dataEncerramento, m.statusMuralTrabalho)]
      ensures !queryResult ==> muralTrabalhos == old(muralTrabalhos)
    {
      queryResult := false;
      if updateFails {
        return queryResult;
      }
      if m.idMuralTrabalhos in muralTrabalhos {
        muralTrabalhos := muralTrabalhos[m.idMuralTrabalhos := WrittenRow(
          m.nomeTrabalho, m.ongResponsavel, m.totalVoluntarios, m.dataEncerramento, m.statusMuralTrabalho)];
        queryResult := true;
      }
    }
  }
}
