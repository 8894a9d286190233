/** The parts of an HTTP request the endpoints read. */
module Http {

  /**
   * `$_SERVER['REQUEST_METHOD']` (`verb`), `getallheaders()` (looked up by the exact key
   * `Authorization`), `$_GET` with every value already passed through `intval`, and the
   * JSON body decoded into its string-valued keys (a key that is absent or null is not
   * there).
   */
  datatype Request = Request(verb: string, headers: map<string, string>, query: map<string, int>, body: map<string, string>)

  /** config.php answers an OPTIONS request itself, before the endpoint's own code. */
  predicate IsPreflight(req: Request)
  {
    req.verb == "OPTIONS"
  }
}
