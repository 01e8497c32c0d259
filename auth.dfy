/** The token gate, token issuance and username/password validation of
    src/util/Auth.ts. The `jsonwebtoken` library and `bcrypt` are not modelled:
    `jwt.verify(token, SECRET)` is a function from the token text and the
    clock second to a VerifyOutcome, and `bcrypt.compare` a predicate on (plaintext, digest). */
module Auth {
  import opened JsValues
  import opened UsuarioSchema
  import Http

  /** Validity of an issued token: `expiresIn: '1h'`. */
  const TokenTtlSeconds: int := 3600

  const MsgTokenNaoInformado := "Token não informado"
  const MsgTokenExpirado := "Token expirado, faça o login novamente"
  const MsgTokenInvalido := "Token inválido, faça o login"

  /** The payload a token carries once decoded; a signed token may lack any
      claim, so each one is optional. */
  datatype Claims = Claims(
    id: Option<int>,
    nome: Option<string>,
    username: Option<string>,
    iat: Option<int>,
    exp: Option<int>)

  /** What `jwt.verify` hands to its callback: the decoded payload, an error
      named `TokenExpiredError`, or any other error. */
  datatype VerifyOutcome = Decoded(claims: Claims) | Expired | Invalid

  /** The JSON body of every rejection: `{ message, auth }`. */
  datatype TokenReply = TokenReply(status: int, message: string, auth: bool)

  /** Where the middleware ends: a response sent, or control passed on with
      the user id taken from the token. */
  datatype GateDecision = Reject(reply: TokenReply) | Proceed(userId: int)

  /** The payload `generateToken` signs at time `nowSec`: `{ id, nome,
      username }` plus the `iat` and `exp` that `jwt.sign` adds. */
  function TokenPayload(id: int, nome: string, username: string, nowSec: int): (c: Claims)
    ensures c.id == Some(id) && c.nome == Some(nome) && c.username == Some(username)
    ensures c.iat.Some? && c.exp.Some? && c.exp.value == c.iat.value + TokenTtlSeconds
    ensures TruthyNumber(c.id) <==> id != 0
    ensures nowSec >= 0 ==> TruthyNumber(c.exp)
  {
    Claims(Some(id), Some(nome), Some(username), Some(nowSec), Some(nowSec + TokenTtlSeconds))
  }

  /** `Math.floor(Date.now() / 1000)`: the clock in whole seconds. */
  function CurrentTime(nowMs: nat): (t: nat)
    ensures t * 1000 <= nowMs < (t + 1) * 1000
  {
    nowMs / 1000
  }

  /** What `jwt.verify` answers, at clock second `nowSec`, for a token whose
      signature checks and whose payload is `claims`: `TokenExpiredError` once
      the second reaches `exp` (no clock tolerance is configured), the payload
      otherwise. */
  function VerifySigned(claims: Claims, nowSec: nat): VerifyOutcome {
    if claims.exp.Some? && nowSec >= claims.exp.value then Expired else Decoded(claims)
  }

  /** The library's own expiry rule, for a verifier that takes the token and
      the clock second: it never decodes a payload whose `exp` has been
      reached. */
  ghost predicate ChecksExpiry(verify: (string, nat) -> VerifyOutcome) {
    forall token: string, nowSec: nat ::
      verify(token, nowSec).Decoded? && verify(token, nowSec).claims.exp.Some? ==>
        nowSec < verify(token, nowSec).claims.exp.value
  }

  /** The decision `verifyToken` takes for the header value `token`, the
      verifier `verify` (asked at the current second) and the clock reading
      `nowMs` (milliseconds). */
  function Gate(token: Option<string>, verify: (string, nat) -> VerifyOutcome, nowMs: nat): (d: GateDecision)
    ensures d.Proceed? <==>
      Truthy(token) && verify(token.value, CurrentTime(nowMs)).Decoded?
      && TruthyNumber(verify(token.value, CurrentTime(nowMs)).claims.exp)
      && TruthyNumber(verify(token.value, CurrentTime(nowMs)).claims.id)
      && CurrentTime(nowMs) <= verify(token.value, CurrentTime(nowMs)).claims.exp.value
    ensures d.Proceed? ==> d.userId == verify(token.value, CurrentTime(nowMs)).claims.id.value && d.userId != 0
    ensures d.Reject? ==> d.reply.status == 401 && !d.reply.auth
    ensures d.Reject? ==> d.reply.message in {MsgTokenNaoInformado, MsgTokenExpirado, MsgTokenInvalido}
  {
    if !Truthy(token) then
      Reject(TokenReply(401, MsgTokenNaoInformado, false))
    else
      match verify(token.value, CurrentTime(nowMs))
      case Expired => Reject(TokenReply(401, MsgTokenExpirado, false))
      case Invalid => Reject(TokenReply(401, MsgTokenInvalido, false))
      case Decoded(claims) =>
        if !TruthyNumber(claims.exp) || !TruthyNumber(claims.id) then
          Reject(TokenReply(401, MsgTokenInvalido, false))
        else if CurrentTime(nowMs) > claims.exp.value then
          Reject(TokenReply(401, MsgTokenExpirado, false))
        else
          Proceed(claims.id.value)
  }

  /** No header (or an empty one): "Token não informado", whatever the verifier
      would have said. */
  lemma GateWithoutToken(token: Option<string>, verify: (string, nat) -> VerifyOutcome, nowMs: nat)
    requires !Truthy(token)
    ensures Gate(token, verify, nowMs) == Reject(TokenReply(401, MsgTokenNaoInformado, false))
  {
  }

  /** The library's two error kinds give two different messages. */
  lemma GateLibraryErrors(token: Option<string>, verify: (string, nat) -> VerifyOutcome, nowMs: nat)
    requires Truthy(token) && !verify(token.value, CurrentTime(nowMs)).Decoded?
    ensures Gate(token, verify, nowMs) ==
      if verify(token.value, CurrentTime(nowMs)).Expired? then Reject(TokenReply(401, MsgTokenExpirado, false))
      else Reject(TokenReply(401, MsgTokenInvalido, false))
    ensures MsgTokenExpirado != MsgTokenInvalido
  {
  }

  /** A payload whose `exp` or `id` is missing or 0 is "Token inválido", even
      when its signature checks. */
  lemma GateRejectsFalsyClaims(token: Option<string>, verify: (string, nat) -> VerifyOutcome, nowMs: nat)
    requires Truthy(token) && verify(token.value, CurrentTime(nowMs)).Decoded?
    requires var c := verify(token.value, CurrentTime(nowMs)).claims;
      !TruthyNumber(c.exp) || !TruthyNumber(c.id)
    ensures Gate(token, verify, nowMs) == Reject(TokenReply(401, MsgTokenInvalido, false))
  {
  }

  /** The middleware's own clock test: with complete decoded claims, it
      rejects as expired exactly when the clock in whole seconds is strictly
      past `exp`, so on its own it still lets a token through during the
      second `exp`. */
  lemma GateExpiryIsStrict(token: Option<string>, verify: (string, nat) -> VerifyOutcome, nowMs: nat)
    requires Truthy(token) && verify(token.value, CurrentTime(nowMs)).Decoded?
    requires var c := verify(token.value, CurrentTime(nowMs)).claims;
      TruthyNumber(c.exp) && TruthyNumber(c.id)
    ensures var c := verify(token.value, CurrentTime(nowMs)).claims;
      Gate(token, verify, nowMs) ==
        if nowMs / 1000 > c.exp.value then Reject(TokenReply(401, MsgTokenExpirado, false))
        else Proceed(c.id.value)
    ensures var c := verify(token.value, CurrentTime(nowMs)).claims;
      nowMs / 1000 == c.exp.value ==> Gate(token, verify, nowMs) == Proceed(c.id.value)
  {
  }

  /** Behind a verifier with the library's expiry rule, the middleware's own
      clock test never fires: complete decoded claims always pass, and every
      "Token expirado" reply comes from the library's `TokenExpiredError`. */
  lemma ClockTestUnreachable(token: Option<string>, verify: (string, nat) -> VerifyOutcome, nowMs: nat)
    requires ChecksExpiry(verify)
    ensures (Truthy(token) && verify(token.value, CurrentTime(nowMs)).Decoded?
      && TruthyNumber(verify(token.value, CurrentTime(nowMs)).claims.exp)
      && TruthyNumber(verify(token.value, CurrentTime(nowMs)).claims.id)) ==>
        Gate(token, verify, nowMs) == Proceed(verify(token.value, CurrentTime(nowMs)).claims.id.value)
    ensures Gate(token, verify, nowMs) == Reject(TokenReply(401, MsgTokenExpirado, false)) ==>
      Truthy(token) && verify(token.value, CurrentTime(nowMs)).Expired?
  {
    if Truthy(token) && verify(token.value, CurrentTime(nowMs)).Decoded? {
      var o := verify(token.value, CurrentTime(nowMs));
      if o.claims.exp.Some? {
        assert CurrentTime(nowMs) < o.claims.exp.value;
      }
    }
  }

  /** Partner of `generateToken`: a token carrying the payload generated at
      second `issuedAt` passes the gate exactly while the clock is before
      second `issuedAt + 3600` and the user id is not 0, and it then hands
      on that id; from that second on the library answers
      `TokenExpiredError` and the reply is "Token expirado". */
  lemma GeneratedTokenPassesGate(
    id: int, nome: string, username: string, issuedAt: nat,
    token: string, verify: (string, nat) -> VerifyOutcome, nowMs: nat)
    requires token != ""
    requires verify(token, CurrentTime(nowMs)) ==
      VerifySigned(TokenPayload(id, nome, username, issuedAt), CurrentTime(nowMs))
    ensures Gate(Some(token), verify, nowMs).Proceed? <==>
      id != 0 && nowMs < (issuedAt + TokenTtlSeconds) * 1000
    ensures Gate(Some(token), verify, nowMs).Proceed? ==> Gate(Some(token), verify, nowMs).userId == id
    ensures nowMs >= (issuedAt + TokenTtlSeconds) * 1000 ==>
      Gate(Some(token), verify, nowMs) == Reject(TokenReply(401, MsgTokenExpirado, false))
  {
    var exp := issuedAt + TokenTtlSeconds;
    assert CurrentTime(nowMs) < exp <==> nowMs < exp * 1000;
  }

  /** The middleware itself: it answers 401 and stops, or sets
      `req.body.userId` and calls `next` exactly once. */
  method VerifyToken(
    req: Http.Request, next: Http.Continuation,
    token: Option<string>, verify: (string, nat) -> VerifyOutcome, nowMs: nat)
    returns (sent: Option<TokenReply>)
    modifies req, next
    ensures Gate(token, verify, nowMs).Reject? ==>
      sent == Some(Gate(token, verify, nowMs).reply)
      && req.userId == old(req.userId) && req.nomeImagem == old(req.nomeImagem)
      && next.calls == old(next.calls) && next.userIdSeen == old(next.userIdSeen)
    ensures Gate(token, verify, nowMs).Proceed? ==>
      sent == None
      && req.userId == Some(Gate(token, verify, nowMs).userId) && req.nomeImagem == old(req.nomeImagem)
      && next.calls == old(next.calls) + 1
      && next.userIdSeen == Some(Gate(token, verify, nowMs).userId)
  {
    if !Truthy(token) {
      return Some(TokenReply(401, MsgTokenNaoInformado, false));
    }
    var outcome := verify(token.value, nowMs / 1000);
    match outcome {
      case Expired =>
        return Some(TokenReply(401, MsgTokenExpirado, false));
      case Invalid =>
        return Some(TokenReply(401, MsgTokenInvalido, false));
      case Decoded(claims) =>
        if !TruthyNumber(claims.exp) || !TruthyNumber(claims.id) {
          return Some(TokenReply(401, MsgTokenInvalido, false));
        }
        var currentTime := nowMs / 1000;
        if currentTime > claims.exp.value {
          return Some(TokenReply(401, MsgTokenExpirado, false));
        }
        req.userId := claims.id;
        next.Next(req);
        return None;
    }
  }

  const MsgUsuarioNaoEncontrado := "Usuário não encontrado"
  const MsgSenhaIncorreta := "Senha incorreta"
  const MsgLoginRealizado := "Login realizado com sucesso"

  /** The JSON body of `validacaoUsuario`: `{ auth, message, usuario? }`,
      where `usuario` is the selected row, digest included. */
  datatype LoginReply = LoginReply(status: int, auth: bool, message: string, usuario: Option<LoginRow>)

  /** `validacaoUsuario` as written: `(resultado.rowCount === 0);` is an
      expression statement whose value is dropped, so the block after it
      always runs and answers 401 before the password is looked at. `found`
      is the first row of the lookup by username. */
  function ValidacaoUsuarioAsWritten(found: Option<LoginRow>, senha: string, compare: (string, string) -> bool): (r: LoginReply)
    ensures r.status == 401 && !r.auth && r.message == MsgUsuarioNaoEncontrado && r.usuario == None
  {
    LoginReply(401, false, MsgUsuarioNaoEncontrado, None)
  }

  /** `validacaoUsuario` with the 401 guarded by `resultado.rowCount === 0`:
      unknown username, wrong password and success are three outcomes. */
  function ValidacaoUsuario(found: Option<LoginRow>, senha: string, compare: (string, string) -> bool): (r: LoginReply)
    ensures r.status == 200 <==> found.Some? && compare(senha, found.value.senha)
    ensures r.status != 200 ==> r.status == 401 && r.usuario == None
    ensures r.auth <==> r.status == 200
    ensures r.status == 200 ==> r.usuario == found && r.message == MsgLoginRealizado
    ensures r.message == MsgUsuarioNaoEncontrado <==> found.None?
    ensures found.Some? && !compare(senha, found.value.senha) ==>
      r == LoginReply(401, false, MsgSenhaIncorreta, None)
  {
    if found.None? then
      LoginReply(401, false, MsgUsuarioNaoEncontrado, None)
    else if !compare(senha, found.value.senha) then
      LoginReply(401, false, MsgSenhaIncorreta, None)
    else
      LoginReply(200, true, MsgLoginRealizado, found)
  }

  /** The stray `;` turns away a known user who gives the right password,
      whom the guarded version lets in. */
  lemma StraySemicolonRejectsCorrectPassword(row: LoginRow, senha: string, compare: (string, string) -> bool)
    requires compare(senha, row.senha)
    ensures ValidacaoUsuarioAsWritten(Some(row), senha, compare).status == 401
    ensures ValidacaoUsuario(Some(row), senha, compare) == LoginReply(200, true, MsgLoginRealizado, Some(row))
  {
  }
}
