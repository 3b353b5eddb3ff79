/**
 The bandwidth sampler as an object: counters and a packet table updated in place, each method
 proved to take the step the arithmetic in module Sampling describes.
 */
module Sampler {
  import opened Sampling

  class MySampler {
    var totalBytesSent: nat
    var totalBytesAcked: nat
    var totalBytesSentAtLastAcked: nat
    var lastAckedSentTime: nat
    var lastAckedAckTime: nat
    var packetInfos: map<nat, PacketState>

    ghost function Now(): State
      reads this
    {
      State(totalBytesSent, totalBytesAcked, totalBytesSentAtLastAcked, lastAckedSentTime, lastAckedAckTime, packetInfos)
    }

    constructor ()
      ensures Now() == Fresh
    {
      totalBytesSent, totalBytesAcked, totalBytesSentAtLastAcked := 0, 0, 0;
      lastAckedSentTime, lastAckedAckTime := 0, 0;
      packetInfos := map[];
    }

    method OnPacketSent(sentTime: nat, number: nat, bytes: nat, bytesInFlight: nat)
      requires Valid(Now())
      modifies this
      ensures Now() == Sent(old(Now()), sentTime, number, bytes, bytesInFlight) && Valid(Now())
    {
      ValidStep(Now(), Send(sentTime, number, bytes, bytesInFlight));
      totalBytesSent := totalBytesSent + bytes;
      if bytesInFlight == 0 {
        lastAckedAckTime := sentTime;
        totalBytesSentAtLastAcked := totalBytesSent;
        lastAckedSentTime := sentTime;
      }
      var state := PacketState(sentTime, bytes, totalBytesSent, totalBytesSentAtLastAcked, lastAckedSentTime,
                               lastAckedAckTime, totalBytesAcked);
      if number !in packetInfos {
        packetInfos := packetInfos[number := state];
      }
    }

    method OnPacketLost(number: nat)
      requires Valid(Now())
      modifies this`packetInfos
      ensures Now() == Lost(old(Now()), number) && Valid(Now())
    {
      packetInfos := packetInfos - {number};
    }

    method OnPacketAcknowledged(ackTime: nat, number: nat, roundUpdate: bool) returns (bw: nat)
      requires Valid(Now())
      modifies this
      ensures bw == Sample(old(Now()), ackTime, number, roundUpdate)
      ensures Now() == Acked(old(Now()), ackTime, number) && Valid(Now())
    {
      ValidStep(Now(), Ack(ackTime, number));
      if number !in packetInfos {
        return 0;
      }
      bw := OnPacketAcknowledgedInner(ackTime, packetInfos[number], roundUpdate);
      packetInfos := packetInfos - {number};
    }

    method OnPacketAcknowledgedInner(ackTime: nat, p: PacketState, roundUpdate: bool) returns (bw: nat)
      requires p.totalBytesSentAtLastAcked <= p.totalBytesSent && p.totalBytesAcked <= totalBytesAcked
      modifies this`totalBytesAcked, this`totalBytesSentAtLastAcked, this`lastAckedSentTime, this`lastAckedAckTime
      ensures totalBytesAcked == old(totalBytesAcked) + p.size
      ensures totalBytesSentAtLastAcked == p.totalBytesSent
      ensures lastAckedSentTime == p.sentTime && lastAckedAckTime == ackTime
      ensures bw == if roundUpdate then SampleOf(p, totalBytesAcked, ackTime) else 0
    {
      totalBytesAcked := totalBytesAcked + p.size;
      totalBytesSentAtLastAcked := p.totalBytesSent;
      lastAckedSentTime := p.sentTime;
      lastAckedAckTime := ackTime;
      if !roundUpdate || p.lastAckedSentTime == 0 {
        return 0;
      }
      var sendRate := INFINITE;
      if p.sentTime > p.lastAckedSentTime {
        sendRate := Rate(p.totalBytesSent - p.totalBytesSentAtLastAcked, p.sentTime - p.lastAckedSentTime);
      }
      if ackTime <= p.lastAckedAckTime {
        return 0;
      }
      var ackRate := Rate(totalBytesAcked - p.totalBytesAcked, ackTime - p.lastAckedAckTime);
      bw := Min(sendRate, ackRate);
    }
  }
}
