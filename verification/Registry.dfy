/** The connections of a node: MultiConnManager and LazyDelConnManager of core/conn, and DirectWriter's table of
    servers (core/writer/DirectWriter.cpp). */
module Registry {
  import opened Arithmetic
  import opened Bytes

  type ConnId = uint32
  type ServerId = uint64

  // ---- server ids ----

  /** Address and port packed into one number: the address above, the port in the low bits. */
  function GenSId(ip: uint32, port: uint16): ServerId {
    ip * 0x1_0000_0000 + port
  }

  /** The address is what is above the low 32 bits, the port what fits in 16 of them. */
  function AddressOf(sid: ServerId): (uint32, uint16) {
    (sid / 0x1_0000_0000, sid % 0x1_0000)
  }

  const NO_SERVER: ServerId := 0xFFFF_FFFF_FFFF_FFFF  // (sid_t)-1

  /** Packing loses nothing, so different servers have different ids, and none has the id that means none. */
  lemma ServerIdsAreUnique(ip: uint32, port: uint16)
    ensures AddressOf(GenSId(ip, port)) == (ip, port)
    ensures GenSId(ip, port) != NO_SERVER
  {
    DivisionIsUnique(GenSId(ip, port), 0x1_0000_0000, ip, port);
    DivisionIsUnique(GenSId(ip, port), 0x1_0000, 0x1_0000 * ip, port);
  }

  class Conn {
    var id: ConnId
    var enabled: bool

    constructor ()
      ensures enabled && id == 0
    {
      id, enabled := 0, true;
    }
  }

  /** How connecting to a server goes: the constructor throws; it throws after the connection was registered; or a
      connection comes back. */
  datatype ConnectOutcome = ThrewEarly | ThrewLate | Connected

  class DirectWriter {
    var cid: ConnId
    var connMap: map<ConnId, Conn>
    var lazyDelIds: set<ConnId>
    var sid2cid: map<ServerId, ConnId>

    ghost predicate Valid()
      reads this, connMap.Values
    {
      && (forall k :: k in connMap ==> connMap[k].id == k)
      && (forall s :: s in sid2cid ==> sid2cid[s] in connMap)
      && (forall k :: k in connMap && !connMap[k].enabled ==> k in lazyDelIds)
    }

    /** The counter has not wrapped: the next id, if there is one, is free. */
    ghost predicate Counted()
      reads this
    {
      forall k :: k in connMap ==> 0 < k <= cid
    }

    constructor ()
      ensures Valid() && Counted() && connMap == map[] && sid2cid == map[] && lazyDelIds == {} && cid == 0
    {
      cid, connMap, lazyDelIds, sid2cid := 0, map[], {}, map[];
    }

    /** No two live connections share an id, and a live connection is found under its own. */
    lemma IdsAreUnique(c: Conn, d: Conn)
      requires Valid() && c in connMap.Values && d in connMap.Values
      ensures c.id in connMap && connMap[c.id] == c
      ensures c.id == d.id ==> c == d
    {
    }

    /** Gives a new connection the next id, in 32 bits, and enters it.  No live connection is lost exactly when that id is
        free, as it is for the first 2^32 - 1 connections. */
    method OnConnCreate(conn: Conn)
      requires Valid()
      requires conn !in connMap.Values && conn.enabled
      modifies this`cid, this`connMap, conn
      ensures Valid()
      ensures cid == Truncate32(old(cid) + 1) == conn.id && conn.enabled
      ensures connMap == old(connMap)[conn.id := conn]
      ensures (forall c :: c in old(connMap).Values ==> c in connMap.Values) <==> conn.id !in old(connMap)
      ensures old(Counted()) && old(cid) < 0xFFFF_FFFF ==> Counted() && conn.id !in old(connMap)
    {
      cid := Truncate32(cid + 1);
      conn.id := cid;
      ghost var before := connMap;
      connMap := connMap[cid := conn];
      OthersStay(before, cid, conn);
    }

    /** Entering a connection under an id drops the one that had it, if any, and no other. */
    static lemma OthersStay(before: map<ConnId, Conn>, id: ConnId, conn: Conn)
      requires forall k, l :: k in before && l in before && before[k] == before[l] ==> k == l
      requires conn !in before.Values
      ensures (forall c :: c in before.Values ==> c in before[id := conn].Values) <==> id !in before
    {
      var after := before[id := conn];
      if id !in before {
        forall c | c in before.Values ensures c in after.Values {
          var k :| k in before && before[k] == c;
          assert k in after && after[k] == c;
        }
      } else {
        assert before[id] in before.Values;
        assert before[id] !in after.Values;
      }
    }

    function GetConnById(id: ConnId): Conn?
      reads this
    {
      if id in connMap then connMap[id] else null
    }

    /** Connects and enters the new connection under the server's id.  A connection that throws once registered stays
        registered, unknown to the table of servers. */
    method ConnectServer(serverId: ServerId, outcome: ConnectOutcome) returns (conn: Conn?)
      requires Valid()
      modifies this`cid, this`connMap, this`sid2cid
      ensures Valid()
      ensures old(Counted()) && old(cid) < 0xFFFF_FFFF ==> Counted() && (conn != null ==> conn.id !in old(connMap))
      ensures forall c :: c in connMap.Values ==> c in old(connMap.Values) || fresh(c)
      ensures conn != null <==> serverId != NO_SERVER && outcome == Connected
      ensures serverId == NO_SERVER || outcome == ThrewEarly ==> connMap == old(connMap) && cid == old(cid)
      ensures forall k :: k in old(connMap) && k != Truncate32(old(cid) + 1) ==> k in connMap && connMap[k] == old(connMap)[k]
      ensures conn == null ==> sid2cid == old(sid2cid)
      ensures conn != null ==> fresh(conn) && conn.enabled
                               && connMap == old(connMap)[conn.id := conn] && sid2cid == old(sid2cid)[serverId := conn.id]
      ensures conn != null ==> conn.id == Truncate32(old(cid) + 1)
    {
      if serverId == NO_SERVER || outcome == ThrewEarly {
        return null;
      }
      var c := new Conn();
      OnConnCreate(c);
      if outcome == ThrewLate {
        return null;
      }
      sid2cid := sid2cid[serverId := c.id];
      return c;
    }

    /** Sends on a connection.  One whose send throws is disabled and queued for deletion. */
    method DispatchById(id: ConnId, sendThrows: bool) returns (ok: bool)
      requires Valid()
      modifies this`lazyDelIds, connMap.Values
      ensures Valid()
      ensures ok <==> id in connMap && !sendThrows
      ensures id in connMap && sendThrows ==> !connMap[id].enabled && lazyDelIds == old(lazyDelIds) + {id}
      ensures !(id in connMap && sendThrows) ==> lazyDelIds == old(lazyDelIds)
      ensures forall k :: k in connMap && !(k == id && sendThrows) ==> connMap[k].enabled == old(connMap[k].enabled)
    {
      if id in connMap {
        if !sendThrows {
          return true;
        }
        connMap[id].enabled := false;
        lazyDelIds := lazyDelIds + {id};
      }
      return false;
    }

    /** Sends to a server, over its connection if there is one, over a new one if not.  An exception of the first send
        on a new connection is not caught. */
    method Dispatch(serverId: ServerId, outcome: ConnectOutcome, sendThrows: bool) returns (ok: bool, threw: bool)
      requires Valid()
      modifies this, connMap.Values
      ensures Valid()
      ensures old(Counted()) && old(cid) < 0xFFFF_FFFF ==>
                Counted() && (serverId !in old(sid2cid) && serverId in sid2cid ==> sid2cid[serverId] !in old(connMap))
      ensures serverId in old(sid2cid) ==>
                ok == !sendThrows && !threw && sid2cid == old(sid2cid) && connMap == old(connMap) && cid == old(cid)
                && (sendThrows ==> sid2cid[serverId] in lazyDelIds && !connMap[sid2cid[serverId]].enabled)
      ensures serverId !in old(sid2cid) && serverId != NO_SERVER && outcome == Connected ==>
                ok == !sendThrows && threw == sendThrows && serverId in sid2cid
                && sid2cid == old(sid2cid)[serverId := sid2cid[serverId]] && sid2cid[serverId] == Truncate32(old(cid) + 1)
      ensures serverId !in old(sid2cid) && !(serverId != NO_SERVER && outcome == Connected) ==>
                !ok && !threw && sid2cid == old(sid2cid)
      ensures forall k :: k in old(connMap) && k != Truncate32(old(cid) + 1) ==> k in connMap && connMap[k] == old(connMap)[k]
      ensures forall k :: k in old(connMap) && !(sendThrows && serverId in old(sid2cid) && k == old(sid2cid)[serverId]) ==>
                old(connMap)[k].enabled == old(connMap[k].enabled)
    {
      if serverId in sid2cid {
        ok := DispatchById(sid2cid[serverId], sendThrows);
        return ok, false;
      }
      var conn := ConnectServer(serverId, outcome);
      if conn == null {
        return false, false;
      }
      return !sendThrows, sendThrows;
    }

    /** Forgets a connection: every server it serves, then the connection itself. */
    method EraseConnection(conn: Conn?)
      requires Valid()
      modifies this`connMap, this`sid2cid
      ensures Valid() && (old(Counted()) ==> Counted())
      ensures conn == null ==> connMap == old(connMap) && sid2cid == old(sid2cid)
      ensures conn != null ==> connMap == old(connMap) - {conn.id}
      ensures conn != null ==> sid2cid == map s | s in old(sid2cid) && old(sid2cid)[s] != conn.id :: old(sid2cid)[s]
    {
      if conn == null {
        return;
      }
      var sids := set s | s in sid2cid && sid2cid[s] == conn.id;
      var left := sids;
      while left != {}
        invariant left <= sids
        invariant sid2cid == old(sid2cid) - (sids - left) && connMap == old(connMap)
        decreases left
      {
        var s :| s in left;
        sid2cid := sid2cid - {s};
        left := left - {s};
        assert old(sid2cid) - (sids - left) == old(sid2cid) - (sids - left - {s}) - {s};
      }
      connMap := connMap - {conn.id};
    }

    method DelayDelConn(conn: Conn?)
      requires Valid() && (conn != null ==> conn in connMap.Values)
      modifies this`lazyDelIds, conn
      ensures Valid()
      ensures conn != null ==> !conn.enabled && conn.id in lazyDelIds && conn.id == old(conn.id)
      ensures lazyDelIds == old(lazyDelIds) + if conn != null then {conn.id} else {}
    {
      if conn != null {
        conn.enabled := false;
        lazyDelIds := lazyDelIds + {conn.id};
      }
    }

    /** The deletion timer: erases every queued connection that is live and disabled, then empties the queue.  Exactly
        the enabled connections are left, and exactly the servers they serve. */
    method DoEvent()
      requires Valid()
      modifies this`connMap, this`sid2cid, this`lazyDelIds
      ensures Valid() && (old(Counted()) ==> Counted()) && lazyDelIds == {}
      ensures forall k :: k in connMap <==> k in old(connMap) && old(connMap[k]).enabled
      ensures forall k :: k in connMap ==> connMap[k] == old(connMap)[k] && connMap[k].enabled
      ensures forall s :: s in sid2cid <==> s in old(sid2cid) && old(sid2cid)[s] in connMap
      ensures forall s :: s in sid2cid ==> sid2cid[s] == old(sid2cid)[s]
    {
      var left := lazyDelIds;
      while left != {}
        invariant Valid() && left <= lazyDelIds && lazyDelIds == old(lazyDelIds)
        invariant forall k :: k in connMap <==> k in old(connMap) && (old(connMap[k]).enabled || k !in lazyDelIds - left)
        invariant forall k :: k in connMap ==> connMap[k] == old(connMap)[k]
        invariant forall s :: s in sid2cid <==> s in old(sid2cid) && old(sid2cid)[s] in connMap
        invariant forall s :: s in sid2cid ==> sid2cid[s] == old(sid2cid)[s]
        decreases left
      {
        var id :| id in left;
        var conn := GetConnById(id);
        if conn != null && !conn.enabled {
          EraseConnection(conn);
        }
        left := left - {id};
      }
      lazyDelIds := {};
    }
  }
}
