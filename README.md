# Volunteer backend: authentication, user table, jobs, job board and upload names

A Dafny model of the logic in a volunteer-management REST backend (Express,
PostgreSQL, `jsonwebtoken`, `bcrypt`, `multer`). It covers seven parts of that
backend:

- the token middleware `Auth.verifyToken`;
- token issuance `Auth.generateToken` and the username/password check
  `Auth.validacaoUsuario`;
- the volunteer login `AuthController.login`;
- the user handlers of `UsuarioController` over the `usuario` table;
- the job methods of `Trabalho`: listing, insert, update, and the soft-delete
  cascade onto `participacao`;
- the job-board methods of `MuralTrabalhos`: the entry object, the listing of
  active entries, and the update;
- the upload file-name rules of `multerConfig`.

Each source file is one module:

| module | file | source |
|---|---|---|
| `JsValues` | jsvalues.dfy | JavaScript `undefined`, throwing calls, truthiness, `\|\|`, ASCII `toUpperCase` |
| `Http` | http.dfy | `req.body` fields and the `next` continuation |
| `UsuarioSchema` | usuario_schema.dfy | the `usuario` row, and the column list without `senha` |
| `Auth` | auth.dfy | src/util/Auth.ts |
| `AuthController` | auth_controller.dfy | src/controller/AuthController.ts |
| `UsuarioController` | usuario_controller.dfy | src/controller/UsuarioController.ts |
| `TrabalhoModel` | trabalho.dfy | src/model/Trabalho.ts |
| `MuralModel` | mural.dfy | src/model/MuralTrabalhos.ts |
| `MulterConfig` | multer_config.dfy | src/config/multerConfig.ts |

Database tables are maps from primary key to row, held in a class whose
methods replace the map as the SQL statement would. A statement that can
throw inside a `try` becomes a boolean parameter saying that it throws, and
the model follows the `catch`.

Some calls are not modelled, so they become parameters:

- `jwt.verify(token, SECRET)` is a function from the token and the clock
  second to `Decoded(claims) | Expired | Invalid`. The library's own rule
  is stated as the predicate `Auth.ChecksExpiry`: it answers
  `TokenExpiredError` once the second reaches `exp`. For a correctly signed
  token this is `Auth.VerifySigned`.
- `bcrypt.compare` and `bcrypt.hash` are functions.
- `Voluntario.buscarPorEmail` is a function that returns a record, returns
  nothing, or throws.
- `Date.now()` is a natural number of milliseconds.
- `crypto.randomBytes(6)` is a sequence of six bytes.
- `path.extname` gives its result as a string.
- The index `Math.floor(Math.random() * 62)` is a nondeterministic choice in
  `[0, 62)`.

A `SELECT` with no `ORDER BY` gives its rows in no fixed order. So the
listing loops pick the next row nondeterministically, and their contracts
hold for every order.

Three behaviours of the code are worth stating plainly:

- **Login messages.** `AuthController.login` tells an unknown email from a
  wrong password: it answers "Usuário não encontrado" for one and "Senha
  inválida" for the other. `AuthController.LoginDistinguishesUnknownEmail`
  proves that the two replies differ.
- **Cascade.** `removerTrabalho` is neither atomic nor carried on past a
  failure. When the participation update throws, it skips the job update.
  When the job update throws, it keeps the deactivated participations and
  does not roll them back.
- **Deletes.** `deletarUsuario` is a hard `DELETE`, while `removerTrabalho`
  only deactivates rows.

## Model

| member | source | states |
|---|---|---|
| `Auth.Gate` | src/util/Auth.ts:79-127 | the request passes exactly when the header is truthy, the verifier decodes it, `exp` and `id` are truthy and `floor(now/1000) <= exp`; it then hands on the token's (non-zero) id; every rejection is a 401 with `auth: false` and one of the three messages |
| `Auth.CurrentTime` | src/util/Auth.ts:116 | the whole-second clock is the floor of the millisecond reading: `t * 1000 <= now < (t + 1) * 1000` |
| `Auth.GateWithoutToken` | src/util/Auth.ts:81-88 | a missing or empty `x-access-token` gives 401 "Token não informado" whatever the verifier would say |
| `Auth.GateLibraryErrors` | src/util/Auth.ts:91-103 | a `TokenExpiredError` gives "Token expirado, faça o login novamente", any other verify error "Token inválido, faça o login", and the two messages differ |
| `Auth.GateRejectsFalsyClaims` | src/util/Auth.ts:106-113 | a decoded payload with a missing or zero `exp` or `id` gives 401 "Token inválido, faça o login" |
| `Auth.GateExpiryIsStrict` | src/util/Auth.ts:116-122 | the middleware's own clock test: with complete decoded claims it rejects as expired exactly when `floor(now/1000) > exp`, so by itself it lets a token through during the second `exp` |
| `Auth.ClockTestUnreachable` | src/util/Auth.ts:91-122 | behind a verifier with the library's expiry rule, complete decoded claims always pass and every "Token expirado" reply comes from the library's `TokenExpiredError`: the test at lines 116-122 never fires |
| `Auth.VerifyToken` | src/util/Auth.ts:79-127 | on rejection it sends the gate's reply and changes neither `req` nor `next`; on success it sends nothing, sets `req.body.userId` to the token id and calls `next` exactly once, and `next` sees that id |
| `Auth.GeneratedTokenPassesGate` | src/util/Auth.ts:61-69 | a correctly signed token carrying the payload `generateToken` signs at second t (`{id, nome, username}`, `exp = t + 3600`) passes the gate exactly while `now < (t + 3600) * 1000` ms and the id is non-zero, and hands on that id; from then on the reply is 401 "Token expirado, faça o login novamente" |
| `Auth.TokenPayload` | src/util/Auth.ts:61-69 | the claims `generateToken` signs carry the given id, nome and username, an `exp` exactly 3600 s after `iat`, an `exp` that is truthy for any non-negative issue time, and an `id` that is truthy exactly when it is not 0 |
| `Auth.ValidacaoUsuarioAsWritten` | src/util/Auth.ts:34-51 | as written: 401 "Usuário não encontrado" with `auth: false` for every lookup result and password |
| `Auth.ValidacaoUsuario` | src/util/Auth.ts:34-51 | with the guard intended at line 40: 200 with the selected row (`id_usuario, nome, username, senha`) exactly when the username was found and the password matches its digest, otherwise 401 without a row; "Usuário não encontrado" exactly when no row was found; a found row whose digest does not match gives 401 "Senha incorreta" |
| `Auth.StraySemicolonRejectsCorrectPassword` | src/util/Auth.ts:40-50 | a known user giving the right password gets 401 from the code as written and 200 from the guarded version |
| `AuthController.Login` | src/controller/AuthController.ts:6-33 | 400 exactly when `email` or `senha` is missing or empty; 200 with the volunteer exactly when the lookup found one and the compare returned true; 401 "Usuário não encontrado" exactly when the lookup found none; 401 "Senha inválida" exactly when the compare returned false; 500 "Erro ao tentar logar" exactly when the lookup throws, or the compare of a found volunteer throws |
| `AuthController.LoginValidatesBeforeLookup` | src/controller/AuthController.ts:11-13 | a request missing either field gets the same reply whatever the lookup and the compare would do |
| `AuthController.LoginDistinguishesUnknownEmail` | src/controller/AuthController.ts:16-25 | an unknown email and a wrong password give two different 401 replies |
| `UsuarioSchema.PublicHidesSenha` | src/controller/UsuarioController.ts:44-45 | the returned column list keeps id, nome, username, email and imagem_perfil and does not depend on the stored digest |
| `UsuarioSchema.Public` | src/controller/UsuarioController.ts:64-66 | no contract of its own: the column list `id_usuario, nome, username, email, imagem_perfil` of lines 45, 65, 81 and 121; `UsuarioSchema.PublicHidesSenha` states that it keeps those columns and does not depend on the digest |
| `UsuarioSchema.Selected` | src/util/Auth.ts:37 | no contract of its own: the columns `id_usuario, nome, username, senha` of the login lookup; `UsuarioController.UsuarioStore.LookupByUsername` states that its result is this projection of a row with the username |
| `UsuarioController.Merge` | src/controller/UsuarioController.ts:113-129 | each of nome, username, email and imagem_perfil takes the new value when it is truthy and keeps the stored one otherwise; the digest is the hash of the new password when one is truthy, the stored digest otherwise |
| `UsuarioController.MergeFallbacks` | src/controller/UsuarioController.ts:114-129 | for every input whose fields are all missing or empty the row is kept; for every input without a truthy password, applying the update twice equals applying it once |
| `UsuarioController.Clashes` | src/controller/UsuarioController.ts:30-31 | `email = $1 OR username = $2` holds when either column equals a non-NULL parameter, and never for two NULL parameters |
| `UsuarioController.InsertKeepsUnique` | src/controller/UsuarioController.ts:29-37 | inserting a row that clashes with no stored row keeps the table free of duplicate non-NULL emails and usernames |
| `UsuarioController.UsuarioStore.Taken` | src/controller/UsuarioController.ts:29-33 | a duplicate is found only for a non-NULL email or username, and no duplicate means no stored row clashes with the request |
| `UsuarioController.UsuarioStore.CriarUsuario` | src/controller/UsuarioController.ts:25-57 | a row with the same email or username gives 400 and no insert; a missing password gives 500 and no insert; otherwise one new row under a fresh id stores the hash of the password and NULL for a falsy image, and the 201 reply carries the row without its digest; a table without duplicates stays without duplicates |
| `UsuarioController.UsuarioStore.ListarUsuarios` | src/controller/UsuarioController.ts:62-72 | the listing holds exactly the stored rows, each without its digest |
| `UsuarioController.UsuarioStore.BuscarPorId` | src/controller/UsuarioController.ts:77-94 | 404 for an absent id; otherwise 200 with that row without its digest |
| `UsuarioController.UsuarioStore.AtualizarUsuario` | src/controller/UsuarioController.ts:99-141 | 404 and an unchanged table for an absent id; otherwise only that row changes, to its merge with the request, and the 200 reply carries it without its digest |
| `UsuarioController.UsuarioStore.DeletarUsuario` | src/controller/UsuarioController.ts:146-164 | the row is removed outright; 404 when there was none, 200 otherwise |
| `UsuarioController.UsuarioStore.LookupByUsername` | src/util/Auth.ts:37-38 | the first row of the lookup is absent exactly when no row has that (non-NULL) username; otherwise it is the selected columns of a row with that username |
| `UsuarioController.UsuarioStore.Login` | src/controller/UsuarioController.ts:169-171 | the route hands over to `validacaoUsuario` as written, so every request gets 401 "Usuário não encontrado" with `auth: false` |
| `UsuarioController.UsuarioStore.LoginIntended` | src/util/Auth.ts:34-51 | with the intended guard: 200 only with the selected row of a row with that username whose digest matches; 401 otherwise; "Usuário não encontrado" exactly when no row has the username; a 401 for a known username is 401 "Senha incorreta", and some row with that username has a digest the password does not match |
| `JsValues.ToUpperCaseAt` | src/model/Trabalho.ts:262-264 | upper-casing keeps the length, maps each character on its own and leaves no lower-case ASCII letter |
| `JsValues.ToUpperCaseIdempotent` | src/model/Trabalho.ts:262-264 | upper-casing twice equals upper-casing once |
| `JsValues.UpperChar` | src/model/Trabalho.ts:262-264 | one character upper-cased: never a lower-case ASCII letter; a lower-case ASCII letter moves 32 code points down; any other character is kept |
| `JsValues.ToUpperCase` | src/model/MuralTrabalhos.ts:280-281 | no contract of its own: `UpperChar` on every character; `JsValues.ToUpperCaseAt` and `JsValues.ToUpperCaseIdempotent` state its properties |
| `TrabalhoModel.DatePart` | src/model/Trabalho.ts:265-266 | `split('T')[0]` is the longest prefix without a 'T': a prefix, 'T'-free, and followed by 'T' when shorter than the input |
| `TrabalhoModel.IsoDatePart` | src/model/Trabalho.ts:265-266 | on `toISOString()` text the stored date is its first ten characters (`YYYY-MM-DD`) |
| `TrabalhoModel.DatePartIdempotent` | src/model/Trabalho.ts:265-266 | cutting a date part again changes nothing |
| `TrabalhoModel.Trabalho.constructor` | src/model/Trabalho.ts:13-40 | a new job object has id 0 and the given fields |
| `TrabalhoModel.Trabalho.SetIdTrabalho` | src/model/Trabalho.ts:55-57 | sets the id and nothing else |
| `TrabalhoModel.DeactivateParticipacoes` | src/model/Trabalho.ts:219-225 | the participation update keeps the keys, turns off the flag of exactly the participations of that job, and leaves every other row and column as it was |
| `TrabalhoModel.DeactivateTrabalho` | src/model/Trabalho.ts:228-230 | the job update turns off that job's flag and leaves every other job as it was |
| `TrabalhoModel.RemovalIdempotent` | src/model/Trabalho.ts:213-250 | after the cascade no participation of the job is active; repeating it changes neither table and still finds the job |
| `TrabalhoModel.EditedRowNormalised` | src/model/Trabalho.ts:257-267 | an edited job keeps its status, stores name, NGO and location with their lengths and no lower-case ASCII letter, and 'T'-free dates, and editing it with its own stored values changes nothing |
| `TrabalhoModel.EditedRow` | src/model/Trabalho.ts:261-267 | no contract of its own: the row the UPDATE writes, text upper-cased, dates cut to their date part, status kept; `TrabalhoModel.EditedRowNormalised` states its properties and `AtualizarCadastroTrabalho` writes it |
| `TrabalhoModel.Database.ListagemTrabalhos` | src/model/Trabalho.ts:138-167 | null exactly when the query throws; otherwise one new object per row, active or not, with distinct ids, each carrying its row's id and columns |
| `TrabalhoModel.Database.CadastroTrabalho` | src/model/Trabalho.ts:174-207 | true and one new active row under a fresh id, or false and no change when the INSERT throws |
| `TrabalhoModel.Database.RemoverTrabalho` | src/model/Trabalho.ts:213-250 | the participations are deactivated first; a throw there answers false and changes nothing; a throw in the job update answers false and keeps the deactivated participations; otherwise the job is deactivated and the answer is whether the id existed, whatever the participation update did |
| `TrabalhoModel.Database.AtualizarCadastroTrabalho` | src/model/Trabalho.ts:257-286 | true exactly when nothing throws and the id exists; then only that row changes, to the upper-cased text and date parts with its status kept; otherwise nothing changes |
| `MuralModel.MuralTrabalhos.constructor` | src/model/MuralTrabalhos.ts:13-38 | a new entry has id 0, status true and the given fields |
| `MuralModel.MuralTrabalhos.SetIdMuralTrabalhos` | src/model/MuralTrabalhos.ts:53-55 | sets the id and no other field |
| `MuralModel.MuralTrabalhos.SetNomeTrabalho` | src/model/MuralTrabalhos.ts:69-71 | sets the name and no other field |
| `MuralModel.MuralTrabalhos.SetOngResponsavel` | src/model/MuralTrabalhos.ts:85-87 | sets the NGO and no other field |
| `MuralModel.MuralTrabalhos.SetTotalVoluntarios` | src/model/MuralTrabalhos.ts:101-103 | sets the volunteer count and no other field |
| `MuralModel.MuralTrabalhos.SetDataEncerramento` | src/model/MuralTrabalhos.ts:117-119 | sets the closing date and no other field |
| `MuralModel.MuralTrabalhos.SetStatusMuralTrabalho` | src/model/MuralTrabalhos.ts:136-138 | sets the status and no other field |
| `MuralModel.ActiveIds` | src/model/MuralTrabalhos.ts:151 | `WHERE status_mural_trabalho` selects exactly the rows whose flag is true |
| `MuralModel.WrittenRowListedIffActive` | src/model/MuralTrabalhos.ts:278-284 | after an entry is written back, its id is listed exactly when the entry's status is true, and no other id is added or dropped |
| `MuralModel.WrittenRow` | src/model/MuralTrabalhos.ts:278-284 | no contract of its own: the row the UPDATE writes, name and NGO upper-cased, count, date and status as given; `MuralModel.WrittenRowListedIffActive` states when it is listed |
| `MuralModel.ListingReadsMissingProperties` | src/model/MuralTrabalhos.ts:158-167 | the camelCase properties the listing reads are absent from the row object, while the snake_case columns hold the row's values |
| `MuralModel.ListedArgumentsAsWritten` | src/model/MuralTrabalhos.ts:160-165 | no contract of its own: the four constructor arguments the listing reads, by their camelCase keys; `MuralModel.ListingReadsMissingProperties` states that each is missing from the row object |
| `MuralModel.MuralDatabase.ListarTrabalhosMural` | src/model/MuralTrabalhos.ts:145-183 | null exactly when the query throws; otherwise one new active entry per active row, with distinct ids taken from `id_mural_trabalhos`, each carrying its row's columns |
| `MuralModel.MuralDatabase.AtualizarTrabalhoMural` | src/model/MuralTrabalhos.ts:274-300 | true exactly when nothing throws and the id exists; then only that row changes, to the entry's status, upper-cased name and NGO, count and date; otherwise nothing changes |
| `MulterConfig.CaracteresAreTheAlphanumerics` | src/config/multerConfig.ts:7 | the alphabet has 62 distinct characters, exactly the ASCII letters and digits |
| `MulterConfig.GerarNomeAleatorio` | src/config/multerConfig.ts:6-14 | the name has exactly `tamanho` characters (16 by default, none when `tamanho <= 0`), each one of the 62 ASCII letters and digits |
| `MulterConfig.Hex` | src/config/multerConfig.ts:22 | the hex text has two lower-case hex digits per byte |
| `MulterConfig.UnhexHex` | src/config/multerConfig.ts:22 | the hex text decodes back to the bytes it came from |
| `MulterConfig.UploadUuid` | src/config/multerConfig.ts:24 | the uuid is the first truthy of body, params and query, else "sem-uuid", and is never empty |
| `MulterConfig.NomeArquivoParts` | src/config/multerConfig.ts:21-27 | the generic name is the uuid, a dash, 12 hex digits that decode to the six random bytes, a dash and the original name |
| `MulterConfig.NomeArquivo` | src/config/multerConfig.ts:21-27 | no contract of its own: `${uuid}-${hash}-${originalname}`; `MulterConfig.NomeArquivoParts` states how it splits back into its parts |
| `MulterConfig.NomeCapa` | src/config/multerConfig.ts:36-41 | the cover name is 16 random ASCII letters and digits followed by the extension (`.jpg` when there is none), and it is also stored in `req.body.nomeImagem` |

## Findings

| source | as written | input that shows it | evidently intended | confidence | as-written member | corrected member |
|---|---|---|---|---|---|---|
| src/util/Auth.ts:40 | `(resultado.rowCount === 0);` is an expression statement, so the block after it always returns 401 "Usuário não encontrado"; the password compare and the 200 reply can never run | an existing username with its correct password | `if (resultado.rowCount === 0) { … }`: 401 only for an unknown username | high; not executed | `Auth.ValidacaoUsuarioAsWritten` | `Auth.ValidacaoUsuario` |
| src/model/MuralTrabalhos.ts:160-165 | the listing builds each entry from `nomeTrabalho`, `ongResponsavel`, `totalVoluntarios` and `dataEncerramento`, but the row has the snake_case columns the UPDATE at lines 278-284 writes, so all four arguments are `undefined` | any active row of `muralTrabalhos` | read `nome_trabalho`, `ong_responsavel`, `total_voluntarios` and `data_encerramento`, as `listagemTrabalhos` does for jobs | medium (the table definition is not part of this model); not executed | `MuralModel.ListedArgumentsAsWritten` | `MuralModel.MuralDatabase.ListarTrabalhosMural` |

The login route `UsuarioController.UsuarioStore.Login` is modelled as written and always answers 401.
`UsuarioController.UsuarioStore.LoginIntended` runs the same lookup through the corrected check.
Its 200 reply returns the selected row, and that row includes the `senha` digest.

## Left out

- Cryptography is not modelled. `jsonwebtoken` and `bcrypt` are parameters. The hard-coded secret `voluntariosBrasil` appears only inside `verify`. The `jsonwebtoken` library is not part of this model; its expiry rule (`TokenExpiredError` once the clock second reaches `exp`, with no clock tolerance configured) is taken from its published behaviour.
- `Auth.Gate`: `jwt.verify` and the callback's `Date.now()` are taken to read the same clock value; a reading that crosses a second boundary between the two is not modelled.
- `UsuarioController.UsuarioStore.CriarUsuario`: the model's hasher is a deterministic function, so bcrypt's fresh salt per call is not captured.
- `UsuarioController.UsuarioStore.AtualizarUsuario`: it checks neither email nor username for uniqueness, as in the source. A clash the database would refuse is not modelled, because the table definition is not part of this model.
- Most database errors in `UsuarioController` are not modelled: the 500 "Erro interno no servidor" replies come from the `catch`. The one throw that is modelled is `bcrypt.hash` on a missing password in `criarUsuario`.
- `validacaoUsuario` has no `try`. A failing query rejects its promise, and the model does not cover that.
- `Auth.Gate`: the model does not cover a JavaScript `NaN` in `exp` or `id`. Such a value is falsy and would be rejected like 0.
- Ids come from `req.params` as text. The model takes them as integers, so a non-numeric id's SQL error is not covered.
- SQL is built by string templates. A value containing a quote can make a statement fail or do something else. The model counts only the failure, through the `…Fails` parameters.
- `cadastroTrabalho` leaves `status_trabalho` to the column default. The model takes that default to be true (active). The table definition is not part of this model.
- `TrabalhoModel.Database.CadastroTrabalho` stores each `Date` as its ISO text. The database's conversion of a `Date` into a DATE column is not modelled.
- Dates are modelled by their text. `toISOString` throwing on an invalid date, and the `Date.toString()` text that `atualizarTrabalhoMural` writes, are not modelled.
- `removerTrabalhoMural` and `novoTrabalhoMural` are not modelled. Their SQL is malformed (an UPDATE with no proper SET, and an INSERT into the wrong table), so what they do depends on how the database rejects it.
- These accessors are not modelled because they are plain field access, and the model reads the fields directly: the getters of `Trabalho` and `MuralTrabalhos`, and the `Trabalho` setters other than `setIdTrabalho`.
- The stubs `UsuarioController.todos` and `UsuarioController.cadastrar` only throw "Method not implemented", and nothing calls them.
- `JsValues.ToUpperCase`: only ASCII letters are upper-cased. Other Unicode case mappings are not modelled, including those that change the length (`"ß".toUpperCase()` is `"SS"`), so the length claims of `JsValues.ToUpperCaseAt` and `TrabalhoModel.EditedRowNormalised` hold for the ASCII model only.
- `MulterConfig.GerarNomeAleatorio`: the index is any value in `[0, 62)`. The model does not claim the draw is uniform, and `tamanho` is an integer where the source accepts any number. Its default is 16, as in the source.
- Not modelled: multer's storage destinations, `path.resolve`, and the `cb` callback protocol. The `filename` rules are modelled as the name they pass to `cb`.
- Console logging is not modelled.
