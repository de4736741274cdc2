/** The stateful MTProto packet splitter, in lockstep with the relay cipher. */
module Splitter {
  import opened Bytes
  import opened Ciphers
  import opened Framing

  /** What both vectors start with, and shrink back to when idle. */
  const RETAINED_CAPACITY: nat := 16 * 1024
  /** How many calls in a row have to leave the buffers empty before they shrink. */
  const TRIM_AFTER_IDLE_CALLS: nat := 64

  /** `Vec::shrink_to` on a vector of `len` bytes. */
  function ShrinkTo(capacity: nat, len: nat, keep: nat): (c: nat)
    requires len <= capacity
    ensures len <= c <= capacity
  {
    if capacity > keep then (if len > keep then len else keep) else capacity
  }

  class MsgSplitter {
    const dec: CtrCipher
    const proto: ProtoTag
    var cipherBuf: seq<byte>
    var plainBuf: seq<byte>
    var cipherCap: nat
    var plainCap: nat
    var disabled: bool
    var idleCalls: nat

    ghost predicate Valid()
      reads this, dec
    {
      Lockstep() && View().Ok()
    }

    /** The plaintext buffer is the decryption of the other at the keystream offset it sits at. */
    ghost predicate Lockstep()
      reads this, dec
    {
      && HANDSHAKE_LEN + |cipherBuf| <= dec.pos
      && plainBuf == Crypt(dec.ks, dec.pos - |cipherBuf|, cipherBuf)
      && |cipherBuf| <= cipherCap && |plainBuf| <= plainCap
      && idleCalls < TRIM_AFTER_IDLE_CALLS
    }

    ghost function View(): (s: State)
      reads this`cipherBuf, this`disabled, dec`pos
    {
      State(dec.ks, proto, if dec.pos < HANDSHAKE_LEN then 0 else dec.pos - HANDSHAKE_LEN, cipherBuf, disabled)
    }

    /** Mirrors the relay encryptor: the raw key and IV of the init, fast-forwarded past it. */
    constructor (suite: Suite, relayInit: seq<byte>, proto: ProtoTag)
      requires |relayInit| == HANDSHAKE_LEN
      ensures Valid() && fresh(this) && fresh(dec) && this.proto == proto
      ensures View() == Fresh(suite.aesCtr(relayInit[8..40], relayInit[40..56]), proto)
    {
      var cipher := new CtrCipher(suite, relayInit[SKIP_LEN..SKIP_LEN + PREKEY_LEN],
                                  relayInit[SKIP_LEN + PREKEY_LEN..SKIP_LEN + PREKEY_LEN + IV_LEN]);
      var dummy := cipher.ApplyKeystream(seq(HANDSHAKE_LEN, _ => 0));
      this.dec := cipher;
      this.proto := proto;
      cipherBuf, plainBuf := [], [];
      cipherCap, plainCap := 0, 0;
      disabled := false;
      idleCalls := 0;
    }

    /** Feed relay-encrypted bytes; the complete packets come back as frames. */
    method Split(encrypted: seq<byte>) returns (parts: seq<seq<byte>>)
      requires Valid()
      modifies this, dec
      ensures Valid()
      ensures (View(), parts) == Step(old(View()), encrypted)
    {
      hide PacketLen, Cuts, Stops, Slices, Crypt, Total, Yield;
      if encrypted == [] { return []; }
      if disabled { return [encrypted]; }

      Absorb(encrypted);
      ghost var all := View();
      YieldOk(all);
      var consumed, unknown;
      parts, consumed, unknown := TakePackets();
      ghost var lens := Cuts(proto, plainBuf);
      if unknown {
        YieldStops(all, lens);
        parts := parts + [cipherBuf[consumed..]];
        cipherBuf, plainBuf := [], [];
        cipherCap, plainCap := 0, 0;
        disabled := true;
        return;
      }

      YieldWaits(all, lens);
      CryptDrop(all.ks, all.Base(), all.buf, consumed);
      cipherBuf := cipherBuf[consumed..];
      plainBuf := plainBuf[consumed..];
      assert View() == Yield(all).0;
      TrimIdleBuffers();
    }

    /** Append a read to both buffers, decrypting only the fresh bytes. */
    method Absorb(encrypted: seq<byte>)
      requires Lockstep()
      modifies this`cipherBuf, this`plainBuf, this`cipherCap, this`plainCap, dec
      ensures Lockstep()
      ensures View() == old(View()).(fed := old(View()).fed + |encrypted|, buf := old(cipherBuf) + encrypted)
    {
      hide Crypt;
      CryptAppend(dec.ks, dec.pos - |cipherBuf|, cipherBuf, encrypted);
      var decrypted := dec.ApplyKeystream(encrypted);
      plainBuf := plainBuf + decrypted;
      cipherBuf := cipherBuf + encrypted;
      cipherCap := Grow(cipherCap, |cipherBuf|);
      plainCap := Grow(plainCap, |plainBuf|);
    }

    /** The packet loop of `Split`: frames off the front, and whether a zero header ended it. */
    method TakePackets() returns (parts: seq<seq<byte>>, consumed: nat, unknown: bool)
      requires |cipherBuf| == |plainBuf|
      ensures consumed == Total(Cuts(proto, plainBuf)) <= |cipherBuf|
      ensures parts == Slices(cipherBuf, Cuts(proto, plainBuf))
      ensures unknown == Stops(proto, plainBuf)
    {
      hide PacketLen, Cuts, Stops, Slices, Total;
      parts, consumed, unknown := [], 0, false;
      ghost var lens: seq<nat> := [];
      assert plainBuf[0..] == plainBuf;
      NoCuts(cipherBuf);
      while true
        invariant consumed <= |cipherBuf|
        invariant Total(lens) == consumed && parts == Slices(cipherBuf, lens)
        invariant Cuts(proto, plainBuf) == lens + Cuts(proto, plainBuf[consumed..])
        invariant Stops(proto, plainBuf) == Stops(proto, plainBuf[consumed..])
        decreases |cipherBuf| - consumed
      {
        var next := NextPacketLen(consumed);
        if next.None? {
          CutsNone(proto, plainBuf[consumed..]);
          assert lens + [] == lens;
          return;
        }
        CutsOnce(proto, plainBuf, consumed, lens);
        if next.value == 0 {
          unknown := true;
          return;
        }
        parts := parts + [cipherBuf[consumed..consumed + next.value]];
        SlicesSnoc(cipherBuf, lens, next.value);
        lens := lens + [next.value];
        consumed := consumed + next.value;
      }
    }

    /** Empty the buffers: an incomplete packet goes out as it is, in one frame. */
    method Flush() returns (parts: seq<seq<byte>>)
      requires Valid()
      modifies this
      ensures Valid()
      ensures View() == old(View()).(buf := [])
      ensures parts == if old(View()).buf == [] then [] else [old(View()).buf]
      ensures Concat(parts) == old(View()).buf
    {
      if cipherBuf == [] { return []; }
      parts := [cipherBuf];
      ConcatSnoc([], cipherBuf);
      assert [] + parts == parts;
      cipherBuf, cipherCap := [], 0;
      plainBuf := [];
      plainCap := ShrinkTo(plainCap, 0, RETAINED_CAPACITY);
    }

    /** Length of the packet starting at `offset`: none yet, zero for unknown, or complete. */
    function NextPacketLen(offset: nat): (len: Option<nat>)
      reads this
    {
      if offset > |plainBuf| then None else PacketLen(proto, plainBuf[offset..])
    }

    /** Release capacity an unusually large packet left behind, after enough drained calls. */
    method TrimIdleBuffers()
      requires |cipherBuf| <= cipherCap && |plainBuf| <= plainCap
      requires idleCalls < TRIM_AFTER_IDLE_CALLS && |cipherBuf| == |plainBuf|
      modifies this`cipherCap, this`plainCap, this`idleCalls
      ensures |cipherBuf| <= cipherCap && |plainBuf| <= plainCap
      ensures idleCalls < TRIM_AFTER_IDLE_CALLS
      ensures var idle := old(cipherBuf) == [] && old(cipherCap) > RETAINED_CAPACITY;
        var release := idle && old(idleCalls) + 1 == TRIM_AFTER_IDLE_CALLS;
        && idleCalls == (if idle && !release then old(idleCalls) + 1 else 0)
        && (if release then cipherCap == RETAINED_CAPACITY && plainCap <= RETAINED_CAPACITY
            else cipherCap == old(cipherCap) && plainCap == old(plainCap))
    {
      if cipherBuf != [] || cipherCap <= RETAINED_CAPACITY {
        idleCalls := 0;
        return;
      }
      idleCalls := idleCalls + 1;
      if idleCalls < TRIM_AFTER_IDLE_CALLS { return; }
      cipherCap := ShrinkTo(cipherCap, |cipherBuf|, RETAINED_CAPACITY);
      plainCap := ShrinkTo(plainCap, |plainBuf|, RETAINED_CAPACITY);
      idleCalls := 0;
    }
  }

  /** A vector's capacity after an append: kept when it fits, otherwise anything large enough. */
  method Grow(capacity: nat, len: nat) returns (c: nat)
    ensures len <= c && (len <= capacity ==> c == capacity)
  {
    if len <= capacity {
      c := capacity;
    } else {
      c :| len <= c;
    }
  }

  /** One more packet found at `consumed` is one more cut of the whole parse. */
  lemma CutsOnce(proto: ProtoTag, plain: seq<byte>, consumed: nat, lens: seq<nat>)
    requires consumed <= |plain| && PacketLen(proto, plain[consumed..]).Some?
    requires Cuts(proto, plain) == lens + Cuts(proto, plain[consumed..])
    requires Stops(proto, plain) == Stops(proto, plain[consumed..])
    ensures var n := PacketLen(proto, plain[consumed..]).value;
      if n == 0 then Cuts(proto, plain) == lens && Stops(proto, plain)
      else
        && consumed + n <= |plain|
        && Cuts(proto, plain) == (lens + [n]) + Cuts(proto, plain[consumed + n..])
        && Stops(proto, plain) == Stops(proto, plain[consumed + n..])
  {
    hide PacketLen;
    var n := PacketLen(proto, plain[consumed..]).value;
    if n > 0 {
      assert plain[consumed..][n..] == plain[consumed + n..];
    }
  }

  lemma YieldOk(s: State)
    requires |s.buf| <= s.fed && !s.disabled
    ensures Yield(s).0.Ok()
  {
    YieldFacts(s);
  }

  lemma YieldStops(s: State, lens: seq<nat>)
    requires |s.buf| <= s.fed
    requires Cuts(s.proto, Crypt(s.ks, s.Base(), s.buf)) == lens && Stops(s.proto, Crypt(s.ks, s.Base(), s.buf))
    requires Total(lens) <= |s.buf|
    ensures Yield(s) == (s.(buf := [], disabled := true), Slices(s.buf, lens) + [s.buf[Total(lens)..]])
  {}

  lemma YieldWaits(s: State, lens: seq<nat>)
    requires |s.buf| <= s.fed
    requires Cuts(s.proto, Crypt(s.ks, s.Base(), s.buf)) == lens && !Stops(s.proto, Crypt(s.ks, s.Base(), s.buf))
    requires Total(lens) <= |s.buf|
    ensures Yield(s) == (s.(buf := s.buf[Total(lens)..]), Slices(s.buf, lens))
  {}

  lemma CutsNone(proto: ProtoTag, plain: seq<byte>)
    requires PacketLen(proto, plain).None?
    ensures Cuts(proto, plain) == [] && !Stops(proto, plain)
  {}

  lemma SlicesSnoc(s: seq<byte>, lens: seq<nat>, n: nat)
    requires Total(lens) + n <= |s|
    ensures Total(lens + [n]) == Total(lens) + n
    ensures Slices(s, lens + [n]) == Slices(s, lens) + [s[Total(lens)..Total(lens) + n]]
  {
    hide Slices, Total;
    TotalAppend(lens, [n]);
    OneCut(s[Total(lens)..], n);
    SlicesAppend(s, lens, [n]);
    assert s[Total(lens)..][..n] == s[Total(lens)..Total(lens) + n];
  }

  lemma OneCut(s: seq<byte>, n: nat)
    requires n <= |s|
    ensures Total([n]) == n && Slices(s, [n]) == [s[..n]]
  {
    assert [n][1..] == [];
  }

  lemma NoCuts(s: seq<byte>)
    ensures Total([]) == 0 && Slices(s, []) == []
  {}
}
