/** The user handlers of src/controller/UsuarioController.ts over the `usuario`
    table. The table is a map from `id_usuario` to its row; `nextId` is the
    value the table's serial key hands out next. `bcrypt.hash` is the
    parameter `hash`. */
module UsuarioController {
  import opened JsValues
  import opened UsuarioSchema
  import Auth

  const MsgDuplicado := "Email ou username já cadastrados."
  const MsgCriado := "Usuário criado com sucesso"
  const MsgNaoEncontrado := "Usuário não encontrado"
  const MsgAtualizado := "Usuário atualizado com sucesso"
  const MsgDeletado := "Usuário deletado com sucesso"
  const MsgErroInterno := "Erro interno no servidor"

  /** `{ message }`, `{ message, usuario }` or a bare user object. */
  datatype Body = Message(message: string) | WithUser(message: string, usuario: PublicUser) | User(usuario: PublicUser)

  datatype Reply = Reply(status: int, body: Body)

  /** `email = $1 OR username = $2`: SQL equality, which never holds against a
      NULL parameter. */
  predicate Clashes(row: UserRow, email: Option<string>, username: Option<string>)
    ensures Clashes(row, email, username) ==> email.Some? || username.Some?
    ensures email.Some? && row.email == email ==> Clashes(row, email, username)
    ensures username.Some? && row.username == username ==> Clashes(row, email, username)
  {
    (email.Some? && row.email == email) || (username.Some? && row.username == username)
  }

  /** No two rows share a non-NULL email or a non-NULL username: what the
      duplicate check of `criarUsuario` protects. */
  ghost predicate Unique(m: map<int, UserRow>) {
    forall i, j :: i in m && j in m && i != j ==> !Clashes(m[i], m[j].email, m[j].username)
  }

  /** Inserting a row that clashes with no stored row keeps the table free of
      duplicate emails and usernames. */
  lemma InsertKeepsUnique(m: map<int, UserRow>, id: int, row: UserRow)
    requires Unique(m) && id !in m
    requires forall k :: k in m ==> !Clashes(m[k], row.email, row.username)
    ensures Unique(m[id := row])
  {
    var grown := m[id := row];
    forall i, j | i in grown && j in grown && i != j
      ensures !Clashes(grown[i], grown[j].email, grown[j].username)
    {
      if i == id {
        assert !Clashes(m[j], row.email, row.username);
      }
    }
  }

  /** The row `atualizarUsuario` writes over `row`: each text column takes the
      request value when that is truthy and keeps the stored one otherwise; the
      digest is recomputed only for a truthy new password. */
  function Merge(
    row: UserRow, nome: Option<string>, username: Option<string>, email: Option<string>,
    senha: Option<string>, imagemPerfil: Option<string>, hash: string -> string): (m: UserRow)
    ensures Truthy(nome) ==> m.nome == nome
    ensures !Truthy(nome) ==> m.nome == row.nome
    ensures Truthy(username) ==> m.username == username
    ensures !Truthy(username) ==> m.username == row.username
    ensures Truthy(email) ==> m.email == email
    ensures !Truthy(email) ==> m.email == row.email
    ensures Truthy(imagemPerfil) ==> m.imagemPerfil == imagemPerfil
    ensures !Truthy(imagemPerfil) ==> m.imagemPerfil == row.imagemPerfil
    ensures Truthy(senha) ==> m.senha == hash(senha.value)
    ensures !Truthy(senha) ==> m.senha == row.senha
  {
    UserRow(
      Or(nome, row.nome), Or(username, row.username), Or(email, row.email),
      if Truthy(senha) then hash(senha.value) else row.senha,
      Or(imagemPerfil, row.imagemPerfil))
  }

  /** An update whose fields are all missing or empty writes the row back
      unchanged, and repeating an update without a new password changes
      nothing further. */
  lemma MergeFallbacks(
    row: UserRow, nome: Option<string>, username: Option<string>, email: Option<string>,
    senha: Option<string>, imagemPerfil: Option<string>, hash: string -> string)
    ensures !Truthy(nome) && !Truthy(username) && !Truthy(email) && !Truthy(senha) && !Truthy(imagemPerfil) ==>
      Merge(row, nome, username, email, senha, imagemPerfil, hash) == row
    ensures !Truthy(senha) ==>
      var once := Merge(row, nome, username, email, senha, imagemPerfil, hash);
      Merge(once, nome, username, email, senha, imagemPerfil, hash) == once
  {
  }

  class UsuarioStore {
    var usuario: map<int, UserRow>
    var nextId: int

    ghost predicate Valid()
      reads this
    {
      forall id :: id in usuario ==> id < nextId
    }

    constructor ()
      ensures Valid() && usuario == map[] && nextId == 1
    {
      usuario := map[];
      nextId := 1;
    }

    /** Some stored row has the given email or the given username. */
    predicate Taken(email: Option<string>, username: Option<string>)
      reads this
      ensures Taken(email, username) ==> email.Some? || username.Some?
      ensures !Taken(email, username) ==> forall id :: id in usuario ==> !Clashes(usuario[id], email, username)
    {
      exists id :: id in usuario && Clashes(usuario[id], email, username)
    }

    /** `criarUsuario`. A clash answers 400 and inserts nothing; a missing
        password makes `bcrypt.hash` throw (500, nothing inserted); otherwise
        the new row stores the digest of the password, NULL for a falsy image,
        and the reply is 201 with the row without its digest. */
    method CriarUsuario(
      nome: Option<string>, username: Option<string>, email: Option<string>,
      senha: Option<string>, imagemPerfil: Option<string>, hash: string -> string)
      returns (reply: Reply)
      requires Valid()
      modifies this
      ensures Valid()
      ensures Unique(old(usuario)) ==> Unique(usuario)
      ensures old(Taken(email, username)) ==>
        reply == Reply(400, Message(MsgDuplicado)) && usuario == old(usuario) && nextId == old(nextId)
      ensures !old(Taken(email, username)) && senha.None? ==>
        reply == Reply(500, Message(MsgErroInterno)) && usuario == old(usuario) && nextId == old(nextId)
      ensures !old(Taken(email, username)) && senha.Some? ==>
        var row := UserRow(nome, username, email, hash(senha.value), if Truthy(imagemPerfil) then imagemPerfil else None);
        old(nextId) !in old(usuario)
        && usuario == old(usuario)[old(nextId) := row]
        && nextId == old(nextId) + 1
        && reply == Reply(201, WithUser(MsgCriado, Public(old(nextId), row)))
    {
      if Taken(email, username) {
        return Reply(400, Message(MsgDuplicado));
      }
      if senha.None? {
        return Reply(500, Message(MsgErroInterno));
      }
      var hashSenha := hash(senha.value);
      var row := UserRow(nome, username, email, hashSenha, if Truthy(imagemPerfil) then imagemPerfil else None);
      var id := nextId;
      if Unique(usuario) {
        InsertKeepsUnique(usuario, id, row);
      }
      usuario := usuario[id := row];
      nextId := nextId + 1;
      reply := Reply(201, WithUser(MsgCriado, Public(id, row)));
    }

    /** `listarUsuarios`: every row, without its digest. The SELECT has no
        ORDER BY, so the model gives the rows as a set. */
    function ListarUsuarios(): (users: set<PublicUser>)
      reads this
      ensures forall p :: p in users <==> p.idUsuario in usuario && p == Public(p.idUsuario, usuario[p.idUsuario])
    {
      set id | id in usuario :: Public(id, usuario[id])
    }

    /** `buscarPorId`: 404 for an unknown id, otherwise 200 with that row
        without its digest. */
    method BuscarPorId(id: int) returns (reply: Reply)
      ensures id !in usuario ==> reply == Reply(404, Message(MsgNaoEncontrado))
      ensures id in usuario ==> reply.status == 200 && reply.body.User? && reply.body.usuario.idUsuario == id
      ensures id in usuario ==> reply.body.usuario == Public(id, usuario[id])
    {
      if id !in usuario {
        return Reply(404, Message(MsgNaoEncontrado));
      }
      reply := Reply(200, User(Public(id, usuario[id])));
    }

    /** `atualizarUsuario`: 404 and no change for an unknown id; otherwise the
        row becomes its merge with the request, and the reply carries it
        without its digest. */
    method AtualizarUsuario(
      id: int, nome: Option<string>, username: Option<string>, email: Option<string>,
      senha: Option<string>, imagemPerfil: Option<string>, hash: string -> string)
      returns (reply: Reply)
      requires Valid()
      modifies this
      ensures Valid() && nextId == old(nextId)
      ensures id !in old(usuario) ==> reply == Reply(404, Message(MsgNaoEncontrado)) && usuario == old(usuario)
      ensures id in old(usuario) ==>
        var row := Merge(old(usuario)[id], nome, username, email, senha, imagemPerfil, hash);
        usuario == old(usuario)[id := row] && reply == Reply(200, WithUser(MsgAtualizado, Public(id, row)))
    {
      if id !in usuario {
        return Reply(404, Message(MsgNaoEncontrado));
      }
      var existe := usuario[id];
      var senhaHash := existe.senha;
      if Truthy(senha) {
        senhaHash := hash(senha.value);
      }
      var row := UserRow(
        Or(nome, existe.nome), Or(username, existe.username), Or(email, existe.email),
        senhaHash, Or(imagemPerfil, existe.imagemPerfil));
      usuario := usuario[id := row];
      reply := Reply(200, WithUser(MsgAtualizado, Public(id, row)));
    }

    /** `deletarUsuario`: a hard delete; 404 when no row had the id. */
    method DeletarUsuario(id: int) returns (reply: Reply)
      requires Valid()
      modifies this
      ensures Valid() && nextId == old(nextId)
      ensures usuario == old(usuario) - {id} && id !in usuario
      ensures reply == if id in old(usuario) then Reply(200, Message(MsgDeletado)) else Reply(404, Message(MsgNaoEncontrado))
    {
      var existed := id in usuario;
      usuario := usuario - {id};
      if !existed {
        return Reply(404, Message(MsgNaoEncontrado));
      }
      reply := Reply(200, Message(MsgDeletado));
    }

    /** The first row of `SELECT id_usuario, nome, username, senha FROM
        usuario WHERE username = $1`: some row with that username (the
        SELECT has no ORDER BY), or none. SQL equality never holds against a
        NULL parameter or a NULL column. */
    method LookupByUsername(username: Option<string>) returns (found: Option<LoginRow>)
      ensures found.None? <==> username.None? || forall id :: id in usuario ==> usuario[id].username != username
      ensures found.Some? ==>
        found.value.idUsuario in usuario && usuario[found.value.idUsuario].username == username
        && found.value == Selected(found.value.idUsuario, usuario[found.value.idUsuario])
    {
      found := None;
      if username.Some? && exists id :: id in usuario && usuario[id].username == username {
        var id :| id in usuario && usuario[id].username == username;
        found := Some(Selected(id, usuario[id]));
      }
    }

    /** `login` hands the request to `Auth.validacaoUsuario` as written, so
        every request is answered 401 "Usuário não encontrado", whoever
        asks and whatever password they give. */
    method Login(username: Option<string>, senha: string, compare: (string, string) -> bool) returns (reply: Auth.LoginReply)
      ensures reply == Auth.LoginReply(401, false, Auth.MsgUsuarioNaoEncontrado, None)
    {
      var found := LookupByUsername(username);
      reply := Auth.ValidacaoUsuarioAsWritten(found, senha, compare);
    }

    /** The route with the guard `validacaoUsuario` evidently intends: 200
        with the selected row exactly when a row has that username and the
        password matches its digest; 401 "Usuário não encontrado" exactly
        when no row has the username. */
    method LoginIntended(username: Option<string>, senha: string, compare: (string, string) -> bool) returns (reply: Auth.LoginReply)
      ensures reply.status == 200 ==>
        exists id :: id in usuario && usuario[id].username == username
          && reply.usuario == Some(Selected(id, usuario[id])) && compare(senha, usuario[id].senha)
      ensures reply.status == 200 || reply.status == 401
      ensures reply.message == Auth.MsgUsuarioNaoEncontrado <==>
        username.None? || forall id :: id in usuario ==> usuario[id].username != username
      ensures reply.status == 401 && username.Some? && (exists id :: id in usuario && usuario[id].username == username) ==>
        reply == Auth.LoginReply(401, false, Auth.MsgSenhaIncorreta, None)
        && exists id :: id in usuario && usuario[id].username == username && !compare(senha, usuario[id].senha)
    {
      var found := LookupByUsername(username);
      reply := Auth.ValidacaoUsuario(found, senha, compare);
    }
  }
}
