/** The parts of an Express request the core writes to, and the `next`
    continuation a middleware hands control to. */
module Http {
  import opened JsValues

  /** The fields of `req.body` that the core sets. */
  class Request {
    var userId: Option<int>
    var nomeImagem: Option<string>

    constructor ()
      ensures userId == None && nomeImagem == None
    {
      userId := None;
      nomeImagem := None;
    }
  }

  /** The `next` callback: counts its calls and records the `req.body.userId`
      the next handler sees. */
  class Continuation {
    var calls: nat
    var userIdSeen: Option<int>

    constructor ()
      ensures calls == 0 && userIdSeen == None
    {
      calls := 0;
      userIdSeen := None;
    }

    method Next(req: Request)
      modifies this
      ensures calls == old(calls) + 1
      ensures userIdSeen == req.userId
    {
      calls := calls + 1;
      userIdSeen := req.userId;
    }
  }
}
