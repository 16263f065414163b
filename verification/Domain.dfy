/** The configuration entities of internal/domain, without the protocol-specific fields
    (transport, users, the details of TLS) that no property here depends on. */
module Domain {

  datatype Auth = Auth(kind: string, username: string, password: string)

  /** The three switches that decide whether TLS is generated. */
  datatype Tls = Tls(enabled: bool, reality: bool, utls: bool)

  /** The result of net.SplitHostPort and strconv.Atoi on a listen address. */
  datatype Listen = Malformed | Address(host: string, port: int)

  datatype Api = Api(enabled: bool, listen: Listen)

  datatype Inbound = Inbound(name: string, kind: string, listen: string, port: int, tag: string, tls: Tls, auth: Auth)

  datatype Outbound = Outbound(name: string, kind: string, ref: string, server: string, port: int,
                               uuid: string, password: string, cipher: string, tls: Tls, auth: Auth)

  datatype Group = Group(name: string, kind: string, outbounds: seq<string>, url: string, interval: int)

  datatype Rule = Rule(kind: string, values: seq<string>, outbound: string)

  datatype Instance = Instance(name: string, enabled: bool, api: Api, inbounds: seq<Inbound>,
                               outbounds: seq<Outbound>, groups: seq<Group>,
                               routeDefault: string, rules: seq<Rule>)

  const NoAuth := Auth("", "", "")
  const NoTls := Tls(false, false, false)

  /** domain.ValidationErrors: the list that every validator appends to. */
  datatype Issue = Issue(path: string)

  class ValidationErrors {
    var issues: seq<Issue>

    constructor ()
      ensures issues == []
    {
      issues := [];
    }

    method Add(path: string)
      modifies this
      ensures issues == old(issues) + [Issue(path)]
    {
      issues := issues + [Issue(path)];
    }
  }
}
