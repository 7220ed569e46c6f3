/** The address index of the UDP mux: which muxed connection gets the packets from which remote
    address. The mux keeps a map from addresses to connections, and every connection keeps the list
    of addresses it has written to; the two must agree. */
module MuxAddresses {
  import opened Wrappers
  import opened PacketQueue

  datatype MuxError = InvalidAddress | MuxClosed | ConnClosed

  /** The addresses other than `addr`, in order. */
  function Without(addresses: seq<UdpAddr>, addr: UdpAddr): (r: seq<UdpAddr>)
    ensures forall a :: a in r <==> a in addresses && a != addr
  {
    if addresses == [] then []
    else
      var rest := Without(addresses[..|addresses| - 1], addr);
      if addresses[|addresses| - 1] == addr then rest else rest + [addresses[|addresses| - 1]]
  }

  class Conn {
    const key: string
    var addresses: seq<UdpAddr>
    var closed: bool

    constructor (key: string)
      ensures this.key == key && addresses == [] && !closed
    {
      this.key := key;
      addresses, closed := [], false;
    }

    method ContainsAddress(addr: UdpAddr) returns (found: bool)
      ensures found <==> addr in addresses
    {
      for i := 0 to |addresses|
        invariant addr !in addresses[..i]
      {
        if addresses[i] == addr {
          return true;
        }
      }
      return false;
    }

    /** First half of a registration, under the connection's lock. */
    method ListAddress(addr: UdpAddr)
      modifies this`addresses
      ensures addresses == old(addresses) + [addr]
    {
      addresses := addresses + [addr];
    }

    method Close()
      modifies this`closed
      ensures closed
    {
      closed := true;
    }

    /** Drops every occurrence of the address and keeps all others in order. */
    method RemoveAddress(addr: UdpAddr)
      modifies this`addresses
      ensures addresses == Without(old(addresses), addr)
    {
      var kept: seq<UdpAddr> := [];
      for i := 0 to |addresses|
        invariant addresses == old(addresses)
        invariant kept == Without(addresses[..i], addr)
      {
        assert addresses[..i + 1][..i] == addresses[..i];
        if addresses[i] != addr {
          kept := kept + [addresses[i]];
        }
      }
      assert addresses[..|addresses|] == addresses;
      addresses := kept;
    }
  }

  class Mux {
    const localAddr: string
    const unspecified: bool  // listening on an unspecified address
    var connsIPv4: map<string, Conn>
    var connsIPv6: map<string, Conn>
    var addressMap: map<UdpAddr, Conn>
    var closed: bool
    ghost var created: set<Conn>  // every connection this mux ever made
    ghost var tracked: set<Conn>  // in the tables, or taken out of them with addresses not yet cleared

    /** The connection lists exactly the addresses that the mux sends to it. */
    ghost predicate Indexed(c: Conn)
      reads this`addressMap, c
    {
      forall a :: a in c.addresses <==> a in addressMap && addressMap[a] == c
    }

    ghost predicate InTables(c: Conn)
      reads this
    {
      (exists u :: u in connsIPv4 && connsIPv4[u] == c) || (exists u :: u in connsIPv6 && connsIPv6[u] == c)
    }

    ghost predicate Valid()
      reads this, created
    {
      TablesAreSound() && IndexIsSound()
    }

    /** Every connection is in the tables at most once, and a closed mux has empty tables. */
    ghost predicate TablesAreSound()
      reads this`connsIPv4, this`connsIPv6, this`tracked, this`created, this`closed
    {
      && (forall u :: u in connsIPv4 ==> connsIPv4[u] in tracked)
      && (forall u :: u in connsIPv6 ==> connsIPv6[u] in tracked)
      && (forall u, v :: u in connsIPv4 && v in connsIPv4 && connsIPv4[u] == connsIPv4[v] ==> u == v)
      && (forall u, v :: u in connsIPv6 && v in connsIPv6 && connsIPv6[u] == connsIPv6[v] ==> u == v)
      && (forall u, v :: u in connsIPv4 && v in connsIPv6 ==> connsIPv4[u] != connsIPv6[v])
      && (closed ==> connsIPv4 == map[] && connsIPv6 == map[])
      && tracked <= created
    }

    /** The index only says what is listed, and says all of it for the tracked connections. */
    ghost predicate IndexIsSound()
      reads this`addressMap, this`tracked, this`created, this`closed, created
    {
      && tracked <= created
      && (forall a :: a in addressMap ==> addressMap[a] in created && a in addressMap[a].addresses)
      && (!closed ==> forall c :: c in tracked ==> Indexed(c))
    }

    constructor (localAddr: string, unspecified: bool)
      ensures Valid() && !closed && addressMap == map[] && connsIPv4 == map[] && connsIPv6 == map[] && created == {}
      ensures this.localAddr == localAddr && this.unspecified == unspecified
    {
      this.localAddr, this.unspecified := localAddr, unspecified;
      connsIPv4, connsIPv6, addressMap := map[], map[], map[];
      closed := false;
      created, tracked := {}, {};
    }

    /** Returns the connection for a ufrag, creating it if there is none. */
    method GetConn(ufrag: string, addr: string, isIPv6: bool) returns (r: Result<Conn, MuxError>)
      requires Valid()
      modifies this`connsIPv4, this`connsIPv6, this`created, this`tracked
      ensures Valid() && created == old(created) + (if r.Ok? then {r.value} else {})
      ensures r.Err? <==> (!unspecified && localAddr != addr) || closed
      ensures r.Err? ==> r.error == (if !unspecified && localAddr != addr then InvalidAddress else MuxClosed)
      ensures r.Err? ==> connsIPv4 == old(connsIPv4) && connsIPv6 == old(connsIPv6)
      ensures r.Ok? ==>
                && connsIPv4 == (if isIPv6 then old(connsIPv4) else old(connsIPv4)[ufrag := r.value])
                && connsIPv6 == (if isIPv6 then old(connsIPv6)[ufrag := r.value] else old(connsIPv6))
                && (var before := if isIPv6 then old(connsIPv6) else old(connsIPv4);
                    if ufrag in before then r.value == before[ufrag]
                    else fresh(r.value) && r.value.addresses == [] && !r.value.closed)
    {
      if !unspecified && localAddr != addr {
        return Err(InvalidAddress);
      }
      if closed {
        return Err(MuxClosed);
      }
      var table := if isIPv6 then connsIPv6 else connsIPv4;
      if ufrag in table {
        return Ok(table[ufrag]);
      }
      var c := CreateConn(ufrag, isIPv6);
      return Ok(c);
    }

    method CreateConn(ufrag: string, isIPv6: bool) returns (c: Conn)
      requires Valid() && !closed && ufrag !in if isIPv6 then connsIPv6 else connsIPv4
      modifies this`connsIPv4, this`connsIPv6, this`created, this`tracked
      ensures Valid() && fresh(c) && c.addresses == [] && !c.closed && created == old(created) + {c}
      ensures connsIPv4 == if isIPv6 then old(connsIPv4) else old(connsIPv4)[ufrag := c]
      ensures connsIPv6 == if isIPv6 then old(connsIPv6)[ufrag := c] else old(connsIPv6)
    {
      c := new Conn(ufrag);
      created, tracked := created + {c}, tracked + {c};
      if isIPv6 {
        connsIPv6 := connsIPv6[ufrag := c];
      } else {
        connsIPv4 := connsIPv4[ufrag := c];
      }
    }

    /** Second half of a registration, under the index lock: the connection that has the address forgets
        it, and the index sends it to `c`. A closed mux registers nothing. */
    method RegisterConnForAddress(c: Conn, addr: UdpAddr)
      requires addr in addressMap ==> addressMap[addr] in created
      modifies this`addressMap, created`addresses
      ensures addressMap == if closed then old(addressMap) else old(addressMap)[addr := c]
      ensures forall d :: d in created ==>
                d.addresses == if !closed && addr in old(addressMap) && d == old(addressMap)[addr]
                    then Without(old(d.addresses), addr) else old(d.addresses)
    {
      if closed { return; }
      if addr in addressMap {
        addressMap[addr].RemoveAddress(addr);
      }
      addressMap := addressMap[addr := c];
    }

    /** Both halves of a registration, without interruption. */
    method AddAddress(c: Conn, addr: UdpAddr)
      requires IndexIsSound() && c in created && addr !in c.addresses
      modifies this`addressMap, created`addresses
      ensures IndexIsSound()
      ensures addressMap == if closed then old(addressMap) else old(addressMap)[addr := c]
      ensures c.addresses == old(c.addresses) + [addr]
      ensures forall d :: d in created && d != c ==>
                d.addresses == if !closed && addr in old(addressMap) && d == old(addressMap)[addr]
                    then Without(old(d.addresses), addr) else old(d.addresses)
    {
      hide Without;
      c.ListAddress(addr);
      RegisterConnForAddress(c, addr);
      if !closed {
        forall d | d in tracked
          ensures Indexed(d)
        {
          assert old(Indexed(d));
          assert forall a :: a in d.addresses <==> (a in old(d.addresses) && a != addr) || (a == addr && d == c);
        }
      }
    }

    /** A write registers a new address: the address leaves whichever connection had it before. */
    method WriteTo(c: Conn, addr: UdpAddr) returns (r: Option<MuxError>)
      requires Valid() && c in created
      modifies this`addressMap, created`addresses
      ensures Valid()
      ensures r == if c.closed then Some(ConnClosed) else None
      ensures c.closed || addr in old(c.addresses) ==>
                addressMap == old(addressMap) && forall d :: d in created ==> d.addresses == old(d.addresses)
      ensures !c.closed && addr !in old(c.addresses) && !closed ==>
                && addressMap == old(addressMap)[addr := c]
                && c.addresses == old(c.addresses) + [addr]
                && (forall d :: d in created && d != c ==>
                      d.addresses == if addr in old(addressMap) && d == old(addressMap)[addr]
                          then Without(old(d.addresses), addr) else old(d.addresses))
    {
      hide TablesAreSound, IndexIsSound, Without;
      if c.closed {
        return Some(ConnClosed);
      }
      var known := c.ContainsAddress(addr);
      if !known {
        AddAddress(c, addr);
      }
      return None;
    }

    /** First half of a removal, under the table lock: the connections leave the tables. */
    method TakeConns(ufrag: string) returns (removed: seq<Conn>)
      requires Valid()
      modifies this`connsIPv4, this`connsIPv6
      ensures Valid()
      ensures connsIPv4 == old(connsIPv4) - {ufrag} && connsIPv6 == old(connsIPv6) - {ufrag}
      ensures forall c :: c in removed <==>
                (ufrag in old(connsIPv4) && c == old(connsIPv4)[ufrag])
                    || (ufrag in old(connsIPv6) && c == old(connsIPv6)[ufrag])
      ensures forall c :: c in removed ==> c in tracked && !InTables(c)
    {
      hide IndexIsSound, Indexed;
      removed := [];
      if ufrag in connsIPv4 {
        removed := removed + [connsIPv4[ufrag]];
        connsIPv4 := connsIPv4 - {ufrag};
      }
      if ufrag in connsIPv6 {
        removed := removed + [connsIPv6[ufrag]];
        connsIPv6 := connsIPv6 - {ufrag};
      }
    }

    method DeleteAll(addresses: seq<UdpAddr>)
      modifies this`addressMap
      ensures addressMap == old(addressMap) - (set a | a in addresses)
    {
      for j := 0 to |addresses|
        invariant addressMap == old(addressMap) - (set a | a in addresses[..j])
      {
        assert addresses[..j + 1] == addresses[..j] + [addresses[j]];
        addressMap := addressMap - {addresses[j]};
      }
      assert addresses[..|addresses|] == addresses;
    }

    method DeleteAddressesOf(removed: seq<Conn>)
      requires forall c :: c in removed ==> Indexed(c)
      modifies this`addressMap
      ensures addressMap == map a | a in old(addressMap) && old(addressMap)[a] !in removed :: old(addressMap)[a]
    {
      ghost var before := addressMap;
      assert forall c, a :: c in removed ==> (a in c.addresses <==> a in before && before[a] == c) by {
        assert forall c :: c in removed ==> Indexed(c);
      }
      for i := 0 to |removed|
        invariant addressMap == map a | a in before && before[a] !in removed[..i] :: before[a]
      {
        DeleteAll(removed[i].addresses);
        assert removed[..i + 1] == removed[..i] + [removed[i]];
      }
      assert removed[..|removed|] == removed;
    }

    /** Second half, under the index lock, at any later time: the listed addresses leave the index. */
    method ClearAddresses(removed: seq<Conn>)
      requires Valid() && !closed
      requires forall c :: c in removed ==> c in tracked && !InTables(c)
      modifies this`addressMap, this`tracked
      ensures Valid()
      ensures addressMap == map a | a in old(addressMap) && old(addressMap)[a] !in removed :: old(addressMap)[a]
      ensures tracked == old(tracked) - (set c | c in removed)
    {
      DeleteAddressesOf(removed);
      tracked := tracked - (set c | c in removed);
      forall c | c in tracked
        ensures Indexed(c)
      {
        assert old(Indexed(c));
      }
    }

    /** Closes every connection in the tables, empties them and closes the mux. */
    method Close()
      requires Valid()
      modifies this`connsIPv4, this`connsIPv6, this`closed, created`closed
      ensures Valid() && closed
      ensures connsIPv4 == map[] && connsIPv6 == map[]
      ensures forall c :: c in created ==> c.closed == (old(c.closed) || old(InTables(c)))
    {
      if closed { return; }
      var todo := connsIPv4.Values + connsIPv6.Values;
      ghost var all := todo;
      while todo != {}
        invariant todo <= all && connsIPv4 == old(connsIPv4) && connsIPv6 == old(connsIPv6) && !closed
        invariant forall c :: c in created ==> c.closed == (old(c.closed) || c in all - todo)
        decreases todo
      {
        var c := AnyOf(todo);
        c.Close();
        todo := todo - {c};
      }
      connsIPv4, connsIPv6 := map[], map[];
      closed := true;
    }

    /** Removing a ufrag deletes exactly the index entries of the removed connections. */
    method RemoveConnByUfrag(ufrag: string)
      requires Valid()
      modifies this`connsIPv4, this`connsIPv6, this`tracked, this`addressMap
      ensures Valid()
      ensures connsIPv4 == old(connsIPv4) - {ufrag} && connsIPv6 == old(connsIPv6) - {ufrag}
      ensures addressMap ==
                map a | a in old(addressMap)
                    && !Owns(old(connsIPv4), old(connsIPv6), ufrag, old(addressMap)[a]) :: old(addressMap)[a]
    {
      hide Indexed, IndexIsSound;
      var removed := TakeConns(ufrag);
      assert closed ==> removed == [] by {
        assert removed != [] ==> removed[0] in removed;
      }
      if removed == [] {
        assert forall a :: a in addressMap ==> addressMap[a] !in removed;
        return;
      }
      ClearAddresses(removed);
    }
  }

  predicate Owns(connsIPv4: map<string, Conn>, connsIPv6: map<string, Conn>, ufrag: string, c: Conn) {
    (ufrag in connsIPv4 && connsIPv4[ufrag] == c) || (ufrag in connsIPv6 && connsIPv6[ufrag] == c)
  }
}
