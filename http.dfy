/** The slice of Next.js's request and response objects the API handlers use. */
module Http {
  import opened Wrappers

  /** JavaScript truthiness of an optional string field of a request body: present and not empty. */
  predicate Truthy(field: Option<string>) {
    field.Some? && field.value != ""
  }

  /** The cookie data of a request in both shapes it may arrive in: Next.js's parsed map and the raw `Cookie` header. */
  datatype RequestCookies = RequestCookies(parsed: Option<map<string, string>>, header: Option<string>)

  /** An inbound request: its HTTP method, its cookies and its decoded JSON body. */
  datatype Request<B> = Request(verb: string, cookies: RequestCookies, body: B)

  /** What a handler has sent: the status code, the headers set and the JSON body. */
  datatype Reply<B> = Reply(code: int, headers: map<string, string>, body: B)

  /** Next.js's response object: headers are set one by one, then `res.status(code).json(body)` sends. */
  class ServerResponse<B> {
    var statusCode: int
    var headers: map<string, string>
    var body: Option<B>

    constructor ()
      ensures statusCode == 200 && headers == map[] && body == None
    {
      statusCode := 200;
      headers := map[];
      body := None;
    }

    /** `res.setHeader(name, value)`. */
    method SetHeader(name: string, value: string)
      modifies this
      ensures headers == old(headers)[name := value]
      ensures statusCode == old(statusCode) && body == old(body)
    {
      headers := headers[name := value];
    }

    /** `res.status(code).json(b)`. */
    method Send(code: int, b: B)
      modifies this
      ensures statusCode == code && body == Some(b)
      ensures headers == old(headers)
    {
      statusCode := code;
      body := Some(b);
    }

    /** The reply once a body has been sent. */
    function Sent(): (r: Option<Reply<B>>)
      reads this
      ensures r.Some? <==> body.Some?
      ensures r.Some? ==> r.value.code == statusCode && r.value.headers == headers && r.value.body == body.value
    {
      if body.Some? then Some(Reply(statusCode, headers, body.value)) else None
    }
  }
}
