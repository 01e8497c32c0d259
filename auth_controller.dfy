/** `AuthController.login` of src/controller/AuthController.ts: validate the
    request, look the volunteer up by email, compare the password, answer.
    `Voluntario.buscarPorEmail` and `bcrypt.compare` are parameters; either may
    throw, which the handler's `catch` turns into a 500. */
module AuthController {
  import opened JsValues

  const MsgObrigatorios := "Email e senha são obrigatórios"
  const MsgUsuarioNaoEncontrado := "Usuário não encontrado"
  const MsgSenhaInvalida := "Senha inválida"
  const MsgLoginRealizado := "Login realizado com sucesso"
  const MsgErroLogar := "Erro ao tentar logar"

  /** The fields of a volunteer record the login flow reads. */
  datatype Voluntario = Voluntario(idVoluntario: int, nome: string, email: string, senha: string)

  /** `{ erro }` or `{ mensagem, voluntario }`. */
  datatype Body = Erro(erro: string) | Sucesso(mensagem: string, voluntario: Voluntario)

  datatype Reply = Reply(status: int, body: Body)

  /** The answer of `login` for the request fields `email` and `senha`. */
  function Login(
    email: Option<string>, senha: Option<string>,
    buscarPorEmail: string -> Outcome<Option<Voluntario>>,
    compare: (string, string) -> Outcome<bool>): (r: Reply)
    ensures r.status == 400 <==> !Truthy(email) || !Truthy(senha)
    ensures r.status == 400 ==> r.body == Erro(MsgObrigatorios)
    ensures r.status == 200 <==>
      Truthy(email) && Truthy(senha)
      && buscarPorEmail(email.value).Returned? && buscarPorEmail(email.value).value.Some?
      && compare(senha.value, buscarPorEmail(email.value).value.value.senha) == Returned(true)
    ensures r.status == 200 ==>
      r.body == Sucesso(MsgLoginRealizado, buscarPorEmail(email.value).value.value)
    ensures r.status == 401 && r.body == Erro(MsgUsuarioNaoEncontrado) <==>
      Truthy(email) && Truthy(senha) && buscarPorEmail(email.value) == Returned(None)
    ensures r.status == 401 && r.body == Erro(MsgSenhaInvalida) <==>
      Truthy(email) && Truthy(senha)
      && buscarPorEmail(email.value).Returned? && buscarPorEmail(email.value).value.Some?
      && compare(senha.value, buscarPorEmail(email.value).value.value.senha) == Returned(false)
    ensures r.status == 500 <==>
      Truthy(email) && Truthy(senha)
      && (buscarPorEmail(email.value).Threw?
          || (buscarPorEmail(email.value).Returned? && buscarPorEmail(email.value).value.Some?
              && compare(senha.value, buscarPorEmail(email.value).value.value.senha).Threw?))
    ensures r.status == 500 ==> r.body == Erro(MsgErroLogar)
    ensures r.status in {200, 400, 401, 500}
  {
    if !Truthy(email) || !Truthy(senha) then
      Reply(400, Erro(MsgObrigatorios))
    else
      match buscarPorEmail(email.value)
      case Threw => Reply(500, Erro(MsgErroLogar))
      case Returned(None) => Reply(401, Erro(MsgUsuarioNaoEncontrado))
      case Returned(Some(voluntario)) =>
        match compare(senha.value, voluntario.senha)
        case Threw => Reply(500, Erro(MsgErroLogar))
        case Returned(false) => Reply(401, Erro(MsgSenhaInvalida))
        case Returned(true) => Reply(200, Sucesso(MsgLoginRealizado, voluntario))
  }

  /** Validation comes before any lookup: a request missing either field gets
      the same answer whatever the store and the hasher would have done. */
  lemma LoginValidatesBeforeLookup(
    email: Option<string>, senha: Option<string>,
    buscar1: string -> Outcome<Option<Voluntario>>, compare1: (string, string) -> Outcome<bool>,
    buscar2: string -> Outcome<Option<Voluntario>>, compare2: (string, string) -> Outcome<bool>)
    requires !Truthy(email) || !Truthy(senha)
    ensures Login(email, senha, buscar1, compare1) == Login(email, senha, buscar2, compare2)
  {
  }

  /** An unknown email never reaches the password compare, and it is told
      apart from a wrong password: the two 401 replies differ. */
  lemma LoginDistinguishesUnknownEmail(
    email: string, senha: string, voluntario: Voluntario,
    buscarMissing: string -> Outcome<Option<Voluntario>>,
    buscarFound: string -> Outcome<Option<Voluntario>>,
    compare1: (string, string) -> Outcome<bool>, compare2: (string, string) -> Outcome<bool>)
    requires email != "" && senha != ""
    requires buscarMissing(email) == Returned(None)
    requires buscarFound(email) == Returned(Some(voluntario))
    requires compare2(senha, voluntario.senha) == Returned(false)
    ensures Login(Some(email), Some(senha), buscarMissing, compare1) == Reply(401, Erro(MsgUsuarioNaoEncontrado))
    ensures Login(Some(email), Some(senha), buscarFound, compare2) == Reply(401, Erro(MsgSenhaInvalida))
    ensures Login(Some(email), Some(senha), buscarMissing, compare1) != Login(Some(email), Some(senha), buscarFound, compare2)
  {
  }
}
