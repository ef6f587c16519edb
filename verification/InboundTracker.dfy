/** The broker's side of an inbound PUBLISH: duplicate detection for QoS 2, routing decision and acknowledgement. */
module InboundTracker {
  import opened Basics
  import opened Packets
  import Protocol = InboundQos2

  /** What to do with an inbound PUBLISH. */
  datatype Handling = Handling(route: bool, reply: Option<Packet>)

  datatype Fault = MissingPacketId

  /** Record and routing decision are those of the protocol's broker step, in every state with this record. */
  ghost predicate IsBrokerStep(before: set<u16>, after: set<u16>, id: u16, accepted: bool, route: bool) {
    forall k: Protocol.Link, tag :: k.seen == before ==>
      var d := Protocol.OnPublish(k, id, tag, accepted);
      after == d.seen && d.routes == if route then k.routes + [tag] else k.routes
  }

  lemma FollowsProtocol(before: set<u16>, after: set<u16>, id: u16, accepted: bool, route: bool)
    requires after == before + {id} && route == (id !in before && accepted)
    ensures IsBrokerStep(before, after, id, accepted, route)
  {
    if id in before {
      assert after == before;
    }
  }

  class Tracker {
    var seen: set<u16>

    constructor ()
      ensures seen == {}
    {
      seen := {};
    }

    /** Record a QoS 2 PUBLISH; true when the identifier was recorded before. */
    method OnPublish(id: u16) returns (duplicate: bool)
      modifies this
      ensures duplicate == (id in old(seen)) && seen == old(seen) + {id}
    {
      duplicate := id in seen;
      seen := seen + {id};
    }

    method OnPubrel(id: u16) returns (existed: bool, reply: Packet)
      modifies this
      ensures existed == (id in old(seen)) && reply == Pubcomp(id)
      ensures forall k: Protocol.Link, tag :: k.seen == old(seen) ==> seen == Protocol.OnPubrel(k, id, tag).seen
    {
      existed := id in seen;
      seen := seen - {id};
      reply := Pubcomp(id);
    }

    /** A copy refused by the guards is recorded and answered like any other; it is only not routed. */
    method HandlePublish(p: PublishPacket, securityRejected: bool, pluginRejects: bool)
      returns (r: Result<Handling, Fault>)
      modifies this
      ensures r.Err? <==> p.qos == ExactlyOnce && p.packetId.None?
      ensures r.Ok? && (p.qos == AtMostOnce || p.packetId.None?) ==> r.value.reply == None
      ensures p.qos == AtLeastOnce && p.packetId.Some? ==> r.value.reply == Some(Puback(p.packetId.value))
      ensures p.qos == ExactlyOnce && p.packetId.Some? ==> r.value.reply == Some(Pubrec(p.packetId.value))
      ensures p.qos != ExactlyOnce ==> seen == old(seen) && r.value.route == !(securityRejected || pluginRejects)
      ensures p.qos == ExactlyOnce && r.Ok? ==>
                IsBrokerStep(old(seen), seen, p.packetId.value, !(securityRejected || pluginRejects), r.value.route)
    {
      var pluginRejected := if securityRejected then false else pluginRejects;
      var shouldRoute := true;
      if p.qos == ExactlyOnce {
        match p.packetId {
          case None =>
            return Err(MissingPacketId);
          case Some(id) =>
            var duplicate := OnPublish(id);
            shouldRoute := !duplicate;
        }
      }
      shouldRoute := shouldRoute && !securityRejected && !pluginRejected;
      var reply := match p.qos
        case AtMostOnce => None
        case AtLeastOnce => if p.packetId.Some? then Some(Puback(p.packetId.value)) else None
        case ExactlyOnce => if p.packetId.Some? then Some(Pubrec(p.packetId.value)) else None;
      r := Ok(Handling(shouldRoute, reply));
      if p.qos == ExactlyOnce {
        FollowsProtocol(old(seen), seen, p.packetId.value, !(securityRejected || pluginRejects), shouldRoute);
      }
    }
  }
}
