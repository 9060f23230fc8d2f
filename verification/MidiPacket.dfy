/** USB-MIDI event packets, section 4 of the USB Device Class Definition for MIDI Devices 1.0. */
module MidiPacket {

  import opened MachineTypes

  type Nibble = n: int | 0 <= n < 16

  datatype Packet = Packet(port: Nibble, cin: Nibble, b0: Byte, b1: Byte, b2: Byte)

  /** How many bytes of a packet with this code index number go on the wire. */
  function CinLength(cin: Nibble): (n: nat)
    ensures n <= 3
  {
    [0, 0, 2, 3, 3, 1, 2, 3, 3, 3, 3, 3, 2, 2, 3, 1][cin]
  }

  function Wire(p: Packet): seq<Byte> {
    [p.b0, p.b1, p.b2][..CinLength(p.cin)]
  }

  function WireAll(ps: seq<Packet>): seq<Byte> {
    if ps == [] then [] else Wire(ps[0]) + WireAll(ps[1..])
  }
}
