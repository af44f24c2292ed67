/** The settings the relay needs before it may serve, and `checkConfig`, which validates them. */
module Configuration {
  import opened GoErrors

  datatype Credentials = Credentials(id: string, email: string, password: string)
  datatype Endpoint = Endpoint(host: string, scheme: string)
  datatype Config = Config(credentials: Credentials, endpoint: Endpoint)

  /** The required settings in the order `checkConfig` inspects them, each with the name its error uses. */
  function Required(c: Config): seq<(string, string)> {
    [ (c.credentials.id, "ID"),
      (c.credentials.email, "email"),
      (c.credentials.password, "password"),
      (c.endpoint.host, "host"),
      (c.endpoint.scheme, "scheme") ]
  }

  function MissingMessage(name: string): string {
    "rocket.chat " + name + " not provided"
  }

  /**
   * Nil exactly when every required setting is non-empty; otherwise the
   * error names the first empty setting in the order of Required.
   * The body spells out each message as a literal, as the source does;
   * CheckConfigFirstMissing proves each one equals its MissingMessage.
   */
  function CheckConfig(c: Config): (r: Error)
    ensures r.Nil? <==> forall k :: 0 <= k < |Required(c)| ==> Required(c)[k].0 != ""
  {
    var req := Required(c);
    assert req[0] == (c.credentials.id, "ID") && req[1] == (c.credentials.email, "email");
    assert req[2] == (c.credentials.password, "password") && req[3] == (c.endpoint.host, "host");
    assert req[4] == (c.endpoint.scheme, "scheme") && |req| == 5;
    if c.credentials.id == "" then Fail("rocket.chat ID not provided")
    else if c.credentials.email == "" then Fail("rocket.chat email not provided")
    else if c.credentials.password == "" then Fail("rocket.chat password not provided")
    else if c.endpoint.host == "" then Fail("rocket.chat host not provided")
    else if c.endpoint.scheme == "" then Fail("rocket.chat scheme not provided")
    else Nil
  }

  /** The first empty setting decides the error, whatever the later ones hold. */
  lemma CheckConfigFirstMissing(c: Config, k: nat)
    requires k < |Required(c)| && Required(c)[k].0 == ""
    requires forall j :: 0 <= j < k ==> Required(c)[j].0 != ""
    ensures CheckConfig(c) == Fail(MissingMessage(Required(c)[k].1))
  {
    var req := Required(c);
    if k == 0 {
      assert MissingMessage("ID") == "rocket.chat ID not provided";
    } else if k == 1 {
      assert req[0].0 != "";
      assert MissingMessage("email") == "rocket.chat email not provided";
    } else if k == 2 {
      assert req[0].0 != "" && req[1].0 != "";
      assert MissingMessage("password") == "rocket.chat password not provided";
    } else if k == 3 {
      assert req[0].0 != "" && req[1].0 != "" && req[2].0 != "";
      assert MissingMessage("host") == "rocket.chat host not provided";
    } else {
      assert req[0].0 != "" && req[1].0 != "" && req[2].0 != "" && req[3].0 != "";
      assert MissingMessage("scheme") == "rocket.chat scheme not provided";
    }
  }
}
