/**
 * The HTTP entry point `Handler` of api/fib/handler.go with the HTTP layer
 * peeled away: three query values in (Go's `Query().Get`, which yields ""
 * for a parameter that is absent or empty), a JSON list or a 400 message out.
 */
module FibHandler {
  import opened Wrappers
  import opened GoInt
  import opened Strconv
  import opened Fib
  import FibProperties

  /** The three integers `fibonacci` is called with. */
  datatype Request = Request(n: int, startX: int, startY: int)

  /** What the handler writes: a JSON array of integers, or a Bad Request message. */
  datatype Response = Json(values: seq<int>) | BadRequest(message: string)

  const MissingNumberMessage: string := "Please provide a number in the query parameter 'n'"
  const InvalidStartXMessage: string := "Invalid startx provided"
  const InvalidStartYMessage: string := "Invalid starty provided"
  const InvalidNumberMessage: string := "Invalid number provided"

  /** An optional seed parameter: absent means the default, otherwise it must parse. */
  function Seed(param: string, default: int): (r: Option<int>)
    ensures param == "" ==> r == Some(default)
    ensures r.None? <==> param != "" && Atoi(param).None?
    ensures param != "" && r.Some? ==> InInt64(r.value) && Denotes(param, r.value)
  {
    if param == "" then Some(default) else Atoi(param)
  }

  /**
   * The parameter checks at the top of `Handler`: a missing n first, then
   * startx, then starty, and only then the parse of n.
   */
  function ResolveParams(nParam: string, startxParam: string, startyParam: string): (r: Result<Request>)
    ensures nParam == "" ==> r == Failure(MissingNumberMessage)
    ensures nParam != "" && Seed(startxParam, 0).None? ==> r == Failure(InvalidStartXMessage)
    ensures nParam != "" && Seed(startxParam, 0).Some? && Seed(startyParam, 1).None?
      ==> r == Failure(InvalidStartYMessage)
    ensures nParam != "" && Seed(startxParam, 0).Some? && Seed(startyParam, 1).Some? && Atoi(nParam).None?
      ==> r == Failure(InvalidNumberMessage)
    ensures r.Success? <==> Atoi(nParam).Some? && Seed(startxParam, 0).Some? && Seed(startyParam, 1).Some?
    ensures r.Success? ==> r.value.n == Atoi(nParam).value
    ensures r.Success? ==> r.value.startX == (if startxParam == "" then 0 else Atoi(startxParam).value)
    ensures r.Success? ==> r.value.startY == (if startyParam == "" then 1 else Atoi(startyParam).value)
  {
    if nParam == "" then Failure(MissingNumberMessage)
    else
      match Seed(startxParam, 0)
      case None => Failure(InvalidStartXMessage)
      case Some(startX) =>
        match Seed(startyParam, 1)
        case None => Failure(InvalidStartYMessage)
        case Some(startY) =>
          match Atoi(nParam)
          case None => Failure(InvalidNumberMessage)
          case Some(n) => Success(Request(n, startX, startY))
  }

  /**
   * `Handler`: resolve the parameters, call `fibonacci` only when all three
   * parse, and answer with its sequence or its error message.
   */
  method Handle(nParam: string, startxParam: string, startyParam: string) returns (resp: Response)
    ensures ResolveParams(nParam, startxParam, startyParam).Failure? ==>
      resp == BadRequest(ResolveParams(nParam, startxParam, startyParam).message)
    ensures ResolveParams(nParam, startxParam, startyParam).Success? ==>
      var q := ResolveParams(nParam, startxParam, startyParam).value;
      resp == match FibonacciSpec(q.n, q.startX, q.startY)
              case Failure(m) => BadRequest(m)
              case Success(s) => Json(s)
  {
    var resolved := ResolveParams(nParam, startxParam, startyParam);
    if resolved.Failure? {
      return BadRequest(resolved.message);
    }
    var q := resolved.value;
    var result := Fibonacci(q.n, q.startX, q.startY);
    if result.Failure? {
      return BadRequest(result.message);
    }
    return Json(result.value);
  }

  /** With n given and both seeds absent, the standard seed (0, 1) is used. */
  lemma DefaultSeeds(nParam: string)
    requires Atoi(nParam).Some?
    ensures ResolveParams(nParam, "", "") == Success(Request(Atoi(nParam).value, 0, 1))
  {
  }

  /** The query "n=30" alone is answered with the table entries up to 21. */
  lemma DefaultRequestExample()
    ensures ResolveParams("30", "", "") == Success(Request(30, 0, 1))
    ensures FibonacciSpec(30, 0, 1) == Success([0, 1, 1, 2, 3, 5, 8, 13, 21])
  {
    AtoiItoa(30);
    assert Itoa(30) == "30";
    FibProperties.StandardSeedThirty();
  }
}
