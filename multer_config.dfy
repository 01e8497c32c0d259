/** The upload file-name rules of src/config/multerConfig.ts. `Math.random` is
    a nondeterministic index, `crypto.randomBytes(6)` a parameter, and the
    extension `path.extname` finds in the original name a parameter. */
module MulterConfig {
  import opened JsValues
  import Http

  /** The `n` characters whose code points follow `first`. */
  function CharRange(first: char, n: nat): string
    requires first as int + n < 0xD800
  {
    seq(n, i requires 0 <= i < n => (first as int + i) as char)
  }

  /** "ABCDEFGHIJKLMNOPQRSTUVWXYZabcdefghijklmnopqrstuvwxyz0123456789": the
      upper-case letters, the lower-case letters and the digits, in that
      order. */
  const Caracteres: string := CharRange('A', 26) + CharRange('a', 26) + CharRange('0', 10)

  /** The default of `tamanho`, and the length the cover rule asks for. */
  const TamanhoPadrao: int := 16

  predicate IsAsciiAlphanumeric(c: char) {
    'A' <= c <= 'Z' || 'a' <= c <= 'z' || '0' <= c <= '9'
  }

  /** The alphabet has 62 distinct characters, exactly the ASCII letters and
      digits, so every index of the random draw names a different one. */
  lemma CaracteresAreTheAlphanumerics()
    ensures |Caracteres| == 62
    ensures Caracteres[0] == 'A' && Caracteres[25] == 'Z' && Caracteres[26] == 'a'
    ensures Caracteres[51] == 'z' && Caracteres[52] == '0' && Caracteres[61] == '9'
    ensures forall i :: 0 <= i < |Caracteres| ==> IsAsciiAlphanumeric(Caracteres[i])
    ensures forall c :: IsAsciiAlphanumeric(c) <==> c in Caracteres
    ensures forall i, j :: 0 <= i < j < |Caracteres| ==> Caracteres[i] != Caracteres[j]
  {
    forall c | IsAsciiAlphanumeric(c) ensures c in Caracteres {
      var k := if c <= '9' then 52 + (c as int - '0' as int)
        else if c <= 'Z' then c as int - 'A' as int
        else 26 + (c as int - 'a' as int);
      assert Caracteres[k] == c;
    }
  }

  /** `gerarNomeAleatorio(tamanho)`: `tamanho` characters, each drawn from
      the alphabet; the empty string when `tamanho` is not positive. */
  method GerarNomeAleatorio(tamanho: int := TamanhoPadrao) returns (resultado: string)
    ensures |resultado| == if tamanho <= 0 then 0 else tamanho
    ensures forall i :: 0 <= i < |resultado| ==> resultado[i] in Caracteres
    ensures forall i :: 0 <= i < |resultado| ==> IsAsciiAlphanumeric(resultado[i])
  {
    CaracteresAreTheAlphanumerics();
    resultado := "";
    var i := 0;
    while i < tamanho
      invariant tamanho <= 0 ==> i == 0
      invariant tamanho > 0 ==> 0 <= i <= tamanho
      invariant |resultado| == i
      invariant forall j :: 0 <= j < i ==> resultado[j] in Caracteres
    {
      var indice :| 0 <= indice < |Caracteres|;
      resultado := resultado + [Caracteres[indice]];
      i := i + 1;
    }
  }

  /** A byte, as `crypto.randomBytes` yields it. */
  type Byte = b: int | 0 <= b < 256

  /** A digit of `Buffer.toString('hex')`: lower case. */
  predicate IsHexDigit(c: char) {
    '0' <= c <= '9' || 'a' <= c <= 'f'
  }

  function HexDigit(v: int): char
    requires 0 <= v < 16
  {
    if v < 10 then ('0' as int + v) as char else ('a' as int + v - 10) as char
  }

  function HexValue(c: char): int
    requires IsHexDigit(c)
  {
    if c <= '9' then c as int - '0' as int else c as int - 'a' as int + 10
  }

  /** `buffer.toString('hex')`: two digits per byte, high nibble first. */
  function Hex(bytes: seq<Byte>): (h: string)
    ensures |h| == 2 * |bytes|
    ensures forall i :: 0 <= i < |h| ==> IsHexDigit(h[i])
  {
    if bytes == [] then "" else [HexDigit(bytes[0] / 16), HexDigit(bytes[0] % 16)] + Hex(bytes[1..])
  }

  /** Reading hex digits back into bytes. */
  function Unhex(h: string): seq<Byte>
    requires |h| % 2 == 0
    requires forall i :: 0 <= i < |h| ==> IsHexDigit(h[i])
    decreases |h|
  {
    if h == [] then [] else [HexValue(h[0]) * 16 + HexValue(h[1])] + Unhex(h[2..])
  }

  /** The hex text determines the bytes it was made from. */
  lemma {:induction false} UnhexHex(bytes: seq<Byte>)
    ensures Unhex(Hex(bytes)) == bytes
  {
    if bytes != [] {
      var h := Hex(bytes);
      assert h[2..] == Hex(bytes[1..]);
      UnhexHex(bytes[1..]);
      var b := bytes[0];
      assert HexValue(HexDigit(b / 16)) == b / 16;
      assert HexValue(HexDigit(b % 16)) == b % 16;
    }
  }

  const SemUuid := "sem-uuid"

  /** `req.body?.uuid || req.params?.uuid || req.query?.uuid || 'sem-uuid'`. */
  function UploadUuid(body: Option<string>, params: Option<string>, query: Option<string>): (uuid: string)
    ensures uuid != ""
    ensures Truthy(body) ==> uuid == body.value
    ensures !Truthy(body) && Truthy(params) ==> uuid == params.value
    ensures !Truthy(body) && !Truthy(params) && Truthy(query) ==> uuid == query.value
    ensures !Truthy(body) && !Truthy(params) && !Truthy(query) ==> uuid == SemUuid
  {
    if Truthy(body) then body.value
    else if Truthy(params) then params.value
    else if Truthy(query) then query.value
    else SemUuid
  }

  /** The generic `filename` rule: `${uuid}-${hash}-${originalname}`, with
      `hash` the hex text of six random bytes. */
  function NomeArquivo(body: Option<string>, params: Option<string>, query: Option<string>,
                       randomBytes: seq<Byte>, originalname: string): string
    requires |randomBytes| == 6
  {
    UploadUuid(body, params, query) + "-" + Hex(randomBytes) + "-" + originalname
  }

  /** The generic file name splits back into its parts: the uuid, a dash,
      twelve hex digits that decode to the random bytes, a dash, and the
      original name. */
  lemma NomeArquivoParts(body: Option<string>, params: Option<string>, query: Option<string>,
                         randomBytes: seq<Byte>, originalname: string)
    requires |randomBytes| == 6
    ensures var uuid := UploadUuid(body, params, query);
      var f := NomeArquivo(body, params, query, randomBytes, originalname);
      var n := |uuid|;
      |f| == n + 14 + |originalname|
      && f[..n] == uuid && f[n] == '-' && f[n + 13] == '-' && f[n + 14..] == originalname
      && (forall i :: n + 1 <= i < n + 13 ==> IsHexDigit(f[i]))
      && Unhex(f[n + 1..n + 13]) == randomBytes
  {
    var uuid := UploadUuid(body, params, query);
    var f := NomeArquivo(body, params, query, randomBytes, originalname);
    var n := |uuid|;
    var h := Hex(randomBytes);
    assert f == uuid + "-" + h + "-" + originalname;
    assert f[n + 1..n + 13] == h;
    UnhexHex(randomBytes);
  }

  const ExtensaoPadrao := ".jpg"

  /** The cover `filename` rule: sixteen random alphanumerics and the
      original extension, `.jpg` when there is none; the name is also left in
      `req.body.nomeImagem`. */
  method NomeCapa(req: Http.Request, extname: string) returns (nomeImagem: string)
    modifies req
    ensures var ext := if extname != "" then extname else ExtensaoPadrao;
      |nomeImagem| == TamanhoPadrao + |ext| && nomeImagem[TamanhoPadrao..] == ext
    ensures forall i :: 0 <= i < TamanhoPadrao ==> IsAsciiAlphanumeric(nomeImagem[i])
    ensures req.nomeImagem == Some(nomeImagem) && req.userId == old(req.userId)
  {
    var ext := if extname != "" then extname else ExtensaoPadrao;
    var nome := GerarNomeAleatorio();
    nomeImagem := nome + ext;
    req.nomeImagem := Some(nomeImagem);
  }
}
