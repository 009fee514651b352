/** A node's table of ports, keyed by port id (an ordered std::map, so it
    holds at most one port per id). Starting, killing, joining and deleting
    the port's thread are not modelled. */
module Nodes {
  import opened Wire

  class Node<P> {
    const id: u32
    var ports: map<nat, P>

    constructor (id: u32)
      ensures this.id == id && ports == map[]
    {
      this.id := id;
      ports := map[];
    }

    /** addPort: a port whose id is already taken is rejected and the table
        stays as it was; otherwise it is filed under its id. */
    method AddPort(key: nat, port: P) returns (ok: bool)
      modifies this
      ensures ok == (key !in old(ports))
      ensures ports == if ok then old(ports)[key := port] else old(ports)
    {
      if key in ports {
        return false;
      }
      ports := ports[key := port];
      return true;
    }

    /** removePort: erases exactly the entry with that id, if there is one. */
    method RemovePort(key: nat) returns (ok: bool)
      modifies this
      ensures ok == (key in old(ports))
      ensures ports == old(ports) - {key}
    {
      if key in ports {
        ports := ports - {key};
        return true;
      }
      return false;
    }
  }
}
