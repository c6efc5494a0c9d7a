/** The cache in front of the slaves' EEPROMs: one buffer for the slave asked last, and a bitmap
    that says which of its bytes have been read.  A word of the bitmap is given as the set of its
    bits. */
module SiiCache {
  import opened Bytes

  const EC_MAXEEPBITMAP := 128
  const EC_MAXEEPBUF := 4096

  /** The EEPROMs: the byte at an address of a slave, and whether a read of it brings eight bytes
      instead of four. */
  datatype Device = Device(rom: (nat, nat) -> byte, eight: nat -> bool)

  /** The first byte and the number of bytes that a read for `address` brings. */
  function WindowStart(address: nat): nat
  {
    address / 2 * 2
  }

  function WindowSize(d: Device, slave: nat): nat
  {
    if d.eight(slave) then 8 else 4
  }

  predicate InWindow(d: Device, slave: nat, address: nat, a: nat)
  {
    WindowStart(address) <= a < WindowStart(address) + WindowSize(d, slave)
  }

  class Cache {
    const device: Device
    const esibuf: array<byte>
    const esimap: array<set<nat>>
    var esislave: nat

    /** Byte `a` has been read. */
    predicate Known(a: nat)
      requires esimap.Length == EC_MAXEEPBITMAP && a < EC_MAXEEPBUF
      reads this, esimap
    {
      a % 32 in esimap[a / 32]
    }

    /** Every byte marked as read is the one of the current slave. */
    ghost predicate Valid()
      reads this, esibuf, esimap
    {
      && esibuf.Length == EC_MAXEEPBUF && esimap.Length == EC_MAXEEPBITMAP
      && forall a :: 0 <= a < EC_MAXEEPBUF && Known(a) ==> esibuf[a] == device.rom(esislave, a)
    }

    constructor (d: Device)
      ensures Valid() && device == d && esislave == 0 && fresh(esibuf) && fresh(esimap)
      ensures forall a :: 0 <= a < EC_MAXEEPBUF ==> !Known(a)
    {
      device, esislave := d, 0;
      esibuf := new byte[EC_MAXEEPBUF](i => 0);
      esimap := new set<nat>[EC_MAXEEPBITMAP](i => {});
    }

    /** Asking for another slave forgets everything. */
    method Select(slave: nat)
      requires Valid()
      modifies this`esislave, esimap
      ensures Valid() && esislave == slave
      ensures forall a :: 0 <= a < EC_MAXEEPBUF ==> (Known(a) <==> slave == old(esislave) && old(Known(a)))
    {
      if slave != esislave {
        forall i | 0 <= i < EC_MAXEEPBITMAP {
          esimap[i] := {};
        }
        esislave := slave;
      }
    }

    /** Marks the `cnt` bytes from `start` on, across words of the bitmap. */
    method Mark(start: nat, cnt: nat)
      requires esimap.Length == EC_MAXEEPBITMAP && start + cnt <= EC_MAXEEPBUF
      modifies esimap
      ensures forall a :: 0 <= a < EC_MAXEEPBUF ==> (Known(a) <==> old(Known(a)) || start <= a < start + cnt)
    {
      var mapw: nat, mapb: nat := start / 32, start % 32;
      for lp := 0 to cnt
        invariant mapb < 32 && 32 * mapw + mapb == start + lp
        invariant forall a :: 0 <= a < EC_MAXEEPBUF ==> (Known(a) <==> old(Known(a)) || start <= a < start + lp)
      {
        esimap[mapw] := esimap[mapw] + {mapb};
        mapb := mapb + 1;
        if mapb > 31 {
          mapb, mapw := 0, mapw + 1;
        }
      }
    }

    /** One byte of a slave's EEPROM, 0xff behind the end of the buffer.  A byte not known yet is
        read with its window, and exactly that becomes known; the window must fit the buffer. */
    method GetByte(slave: nat, address: nat) returns (b: byte)
      requires Valid()
      requires address < EC_MAXEEPBUF && !(slave == esislave && Known(address)) ==>
                 WindowStart(address) + WindowSize(device, slave) <= EC_MAXEEPBUF
      modifies this`esislave, esibuf, esimap
      ensures Valid() && esislave == slave
      ensures b == if address < EC_MAXEEPBUF then device.rom(slave, address) else 0xff
      ensures forall a :: 0 <= a < EC_MAXEEPBUF ==>
                var before := slave == old(esislave) && old(Known(a));
                var hit := slave == old(esislave) && address < EC_MAXEEPBUF && old(Known(address));
                Known(a) <==> before || (address < EC_MAXEEPBUF && !hit && InWindow(device, slave, address, a))
    {
      b := 0xff;
      Select(slave);
      if address < EC_MAXEEPBUF {
        if Known(address) {
          b := esibuf[address];
        } else {
          var start, cnt := WindowStart(address), WindowSize(device, slave);
          forall i | 0 <= i < cnt {
            esibuf[start + i] := device.rom(slave, start + i);
          }
          Mark(start, cnt);
          b := esibuf[address];
        }
      }
    }
  }

  /** Which addresses a read for can be put in the buffer, exactly: the window of a four-byte read
      sticks out at the last two addresses, that of an eight-byte read at the last six. */
  lemma {:induction false} WindowFits(d: Device, slave: nat, address: nat)
    requires address < EC_MAXEEPBUF
    ensures WindowStart(address) + WindowSize(d, slave) <= EC_MAXEEPBUF <==>
            address < EC_MAXEEPBUF - (if d.eight(slave) then 6 else 2)
    ensures InWindow(d, slave, address, address)
  {
  }
}
