/** The BTP stage: records the ports and lets go of the packet. */
module BtpDecoding {
  import opened Base
  import opened Detection

  /** The ports of a BTP packet; nothing for other upper protocols. */
  function Ports(upper: UpperProtocol, f: ParsedFrame): (r: Option<BtpData>)
    ensures r.Some? <==> upper == BtpA || upper == BtpB
    ensures r.Some? ==> r.value.btpType == upper
    ensures r.Some? ==> r.value.sourcePort == if upper == BtpA then Some(f.btpA.sourcePort) else None
    ensures r.Some? ==> r.value.destinationPort == if upper == BtpA then f.btpA.destinationPort else f.btpB.portB
    ensures r.Some? ==> r.value.destinationPortInfo == if upper == BtpB then Some(f.btpB.portInfo) else None
  {
    match upper
    case BtpA => Some(BtpData(BtpA, Some(f.btpA.sourcePort), f.btpA.destinationPort, None))
    case BtpB => Some(BtpData(BtpB, None, f.btpB.portB, Some(f.btpB.portInfo)))
    case _ => None
  }

  class BtpDecoder {
    const context: DetectionContext
    const heap: PacketHeap

    constructor (context: DetectionContext, heap: PacketHeap)
      ensures this.context == context && this.heap == heap
    {
      this.context, this.heap := context, heap;
    }

    method ParseBtpHeader(upper: UpperProtocol, f: ParsedFrame)
      modifies context`btp
      ensures context.btp == if Ports(upper, f).Some? then Ports(upper, f) else old(context.btp)
    {
      match upper {
        case BtpA =>
          var data := BtpData(UnknownUpper, None, 0, None);
          data := data.(btpType := BtpA);
          data := data.(sourcePort := Some(f.btpA.sourcePort));
          data := data.(destinationPort := f.btpA.destinationPort);
          context.btp := Some(data);
        case BtpB =>
          var data := BtpData(UnknownUpper, None, 0, None);
          data := data.(btpType := BtpB);
          data := data.(destinationPort := f.btpB.portB);
          data := data.(destinationPortInfo := Some(f.btpB.portInfo));
          context.btp := Some(data);
        case Ipv6 =>
        case UnknownUpper =>
      }
    }

    /** Takes the packet over, parses its header and releases it: afterwards the
        packet is alive and nobody's. */
    method Decode(upper: UpperProtocol, f: ParsedFrame, packet: PacketId)
      requires heap.Valid() && packet in heap.owned
      modifies context`btp, heap
      ensures heap.Valid() && heap.next == old(heap.next)
      ensures heap.live == old(heap.live) && heap.owned == old(heap.owned) - {packet}
      ensures context.btp == if Ports(upper, f).Some? then Ports(upper, f) else old(context.btp)
    {
      ParseBtpHeader(upper, f);
      heap.Release(packet);
    }
  }
}
