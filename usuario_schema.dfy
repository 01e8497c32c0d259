/** The `usuario` table as the authentication code and the user controller
    see it. */
module UsuarioSchema {
  import opened JsValues

  /** One row of `usuario`. The columns an INSERT may leave NULL are options;
      `senha` always holds a bcrypt digest. */
  datatype UserRow = UserRow(
    nome: Option<string>,
    username: Option<string>,
    email: Option<string>,
    senha: string,
    imagemPerfil: Option<string>)

  /** The column list every RETURNING and SELECT of the controller names:
      all columns except `senha`. */
  datatype PublicUser = PublicUser(
    idUsuario: int,
    nome: Option<string>,
    username: Option<string>,
    email: Option<string>,
    imagemPerfil: Option<string>)

  function Public(id: int, row: UserRow): PublicUser {
    PublicUser(id, row.nome, row.username, row.email, row.imagemPerfil)
  }

  /** The columns `validacaoUsuario` selects: `id_usuario, nome, username,
      senha`. */
  datatype LoginRow = LoginRow(
    idUsuario: int,
    nome: Option<string>,
    username: Option<string>,
    senha: string)

  function Selected(id: int, row: UserRow): LoginRow {
    LoginRow(id, row.nome, row.username, row.senha)
  }

  /** The projection carries no information about the stored digest: rows that
      differ only in `senha` project to the same value, and the projection
      keeps every other column. */
  lemma PublicHidesSenha(id: int, row: UserRow, otherDigest: string)
    ensures Public(id, row.(senha := otherDigest)) == Public(id, row)
    ensures var p := Public(id, row);
      p.idUsuario == id && p.nome == row.nome && p.username == row.username
      && p.email == row.email && p.imagemPerfil == row.imagemPerfil
  {
  }
}
