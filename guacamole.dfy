/** backend/core/guacamole_client.py as the handlers see it: the broker's
    table of connections, changed by requests whose outcome is a parameter.
    The HTTP exchange itself is not modelled. */
module Guacamole {
  import opened Common

  /** A VNC connection to host `backend`: its name and its port. */
  datatype Connection = Connection(name: string, port: int)

  /** What `get_guac_token` gives back. */
  datatype TokenReply =
    | Issued(token: string)   // an `authToken`, which may be the falsy ""
    | Unavailable             // both attempts failed: `None`
    | Malformed               // the first answer succeeded without an `authToken`: the `KeyError` escapes

  /** A token the handlers go on with: issued and truthy. */
  predicate Usable(t: TokenReply) {
    t.Issued? && t.token != ""
  }

  /** The broker's connections, by identifier. */
  class Broker {
    var connections: map<string, Connection>

    constructor ()
      ensures connections == map[]
    {
      connections := map[];
    }

    /** `create_guac_connection`: `reply` is the identifier the broker assigns
        to the new connection, `None` when the request raises. */
    method CreateConnection(name: string, port: int, reply: Option<string>) returns (id: Option<string>)
      modifies this
      ensures id == reply
      ensures reply.Some? ==> connections == old(connections)[reply.value := Connection(name, port)]
      ensures reply.None? ==> connections == old(connections)
    {
      if reply.Some? {
        connections := connections[reply.value := Connection(name, port)];
      }
      id := reply;
    }

    /** `delete_guac_connection`: raises (`ok` false) when the broker refuses
        the request (`accepted` false) or does not know `id`. */
    method DeleteConnection(id: string, accepted: bool) returns (ok: bool)
      modifies this
      ensures ok <==> accepted && id in old(connections)
      ensures connections == if accepted then old(connections) - {id} else old(connections)
    {
      ok := accepted && id in connections;
      if accepted {
        connections := connections - {id};
      }
    }
  }
}
