/**
 * An in-memory stand-in for the object store the three services share: a map
 * from object address to contents. Which addresses fail is fixed when the
 * store is built (`faulty`): a get or put there reports a storage error, so a
 * handler can be followed along every failure path.
 */
module Store {
  import opened Wrappers
  import opened Locator

  datatype StoreError = NotFound | Unavailable
  {
    /** A fixed word per error kind; the SDK's own error text is not modelled. */
    function Text(): string
    {
      match this
      case NotFound => "NoSuchKey"
      case Unavailable => "ServiceUnavailable"
    }
  }

  /** What a get of `r` returns from a store holding `objects`, failing on `faulty`. */
  function Fetch(objects: map<Ref, string>, faulty: set<Ref>, r: Ref): (res: Result<string, StoreError>)
    ensures res.Ok? <==> r in objects && r !in faulty
    ensures res.Ok? ==> res.value == objects[r]
    ensures res == Err(NotFound) <==> r !in objects && r !in faulty
    ensures res == Err(Unavailable) <==> r in faulty
  {
    if r in faulty then Err(Unavailable)
    else if r in objects then Ok(objects[r])
    else Err(NotFound)
  }

  class ObjectStore {
    var objects: map<Ref, string>
    const faulty: set<Ref>

    constructor (objects: map<Ref, string>, faulty: set<Ref>)
      ensures this.objects == objects && this.faulty == faulty
    {
      this.objects := objects;
      this.faulty := faulty;
    }

    /** GetObject: the whole object read back (`buf.ReadFrom` of the body). */
    method Get(r: Ref) returns (res: Result<string, StoreError>)
      ensures res.Ok? <==> r in objects && r !in faulty
      ensures res.Ok? ==> res.value == objects[r]
      ensures res == Err(NotFound) <==> r !in objects && r !in faulty
      ensures res == Fetch(objects, faulty, r)
    {
      res := Fetch(objects, faulty, r);
    }

    /** PutObject: stores (or overwrites) the object unless the address is faulty. */
    method Put(r: Ref, body: string) returns (res: Outcome<StoreError>)
      modifies this`objects
      ensures res == (if r in faulty then Fail(Unavailable) else Pass)
      ensures objects == if r in faulty then old(objects) else old(objects)[r := body]
    {
      if r in faulty {
        res := Fail(Unavailable);
      } else {
        objects := objects[r := body];
        res := Pass;
      }
    }
  }
}

/** The error responses of the three handlers: an HTTP status and the body text. */
module Http {
  import opened Store

  const BadRequest: nat := 400
  const InternalError: nat := 500

  datatype HttpError = HttpError(status: nat, message: string)

  const MissingLocator: string := "missing ?s3=s3://bucket/key"

  function GetFailure(e: StoreError): HttpError
  {
    HttpError(InternalError, "s3 get error: " + e.Text())
  }

  function PutFailure(e: StoreError): HttpError
  {
    HttpError(InternalError, "s3 put error: " + e.Text())
  }
}
