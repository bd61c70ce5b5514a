/** Order and contents of the send and receive buffers, and what each list operation keeps. */
module KcpSegments {
  import opened KcpState

  /** A send-buffer segment without its retransmission bookkeeping. */
  function Key(seg: Seg): RSeg { RSeg(seg.sn, seg.frag) }

  function Keys(buf: seq<Seg>): seq<RSeg> { if buf == [] then [] else [Key(buf[0])] + Keys(buf[1..]) }

  ghost predicate Has(ks: seq<RSeg>, sn: nat) { ks != [] && (ks[0].sn == sn || Has(ks[1..], sn)) }

  /** Strictly increasing sequence numbers in [lo, hi), each with the fragment `stream` has there. */
  ghost predicate Ordered(ks: seq<RSeg>, lo: nat, hi: nat, stream: seq<Frag>) {
    ks == [] ||
    (&& lo <= ks[0].sn < hi && ks[0].sn < |stream| && ks[0].frag == stream[ks[0].sn]
     && Ordered(ks[1..], ks[0].sn + 1, hi, stream))
  }

  lemma {:induction false} OrderedWeakens(ks: seq<RSeg>, lo: nat, hi: nat, stream: seq<Frag>, lo': nat, hi': nat, stream': seq<Frag>)
    requires Ordered(ks, lo, hi, stream) && lo' <= lo && hi <= hi' && stream <= stream'
    ensures Ordered(ks, lo', hi', stream')
  {
    if ks != [] {
      OrderedWeakens(ks[1..], ks[0].sn + 1, hi, stream, ks[0].sn + 1, hi', stream');
    }
  }

  lemma {:induction false} OrderedAbove(ks: seq<RSeg>, lo: nat, hi: nat, stream: seq<Frag>, sn: nat)
    requires Ordered(ks, lo, hi, stream) && Has(ks, sn)
    ensures lo <= sn < hi && sn < |stream|
  {
    if ks[0].sn != sn {
      OrderedAbove(ks[1..], ks[0].sn + 1, hi, stream, sn);
    }
  }

  /** An ordered buffer holds at most as many segments as its window has numbers. */
  lemma {:induction false} OrderedLength(ks: seq<RSeg>, lo: nat, hi: nat, stream: seq<Frag>)
    requires Ordered(ks, lo, hi, stream) && lo <= hi
    ensures lo + |ks| <= hi
  {
    if ks != [] {
      OrderedLength(ks[1..], ks[0].sn + 1, hi, stream);
    }
  }

  lemma {:induction false} OrderedAppend(ks: seq<RSeg>, lo: nat, hi: nat, stream: seq<Frag>, k: RSeg)
    requires Ordered(ks, lo, hi, stream) && lo <= hi <= k.sn < |stream| && k.frag == stream[k.sn]
    ensures Ordered(ks + [k], lo, k.sn + 1, stream)
    ensures forall sn :: Has(ks, sn) || sn == k.sn ==> Has(ks + [k], sn)
  {
    if ks == [] {
      assert (ks + [k])[1..] == [];
    } else {
      assert (ks + [k])[1..] == ks[1..] + [k];
      OrderedAppend(ks[1..], ks[0].sn + 1, hi, stream, k);
    }
  }

  lemma {:induction false} KeysAppend(buf: seq<Seg>, seg: Seg)
    ensures Keys(buf + [seg]) == Keys(buf) + [Key(seg)]
  {
    if buf == [] {
      assert Keys([seg]) == [Key(seg)] + Keys([]);
    } else {
      assert (buf + [seg])[1..] == buf[1..] + [seg];
      KeysAppend(buf[1..], seg);
    }
  }

  lemma {:induction false} KeysAt(buf: seq<Seg>, i: nat)
    requires i < |buf|
    ensures |Keys(buf)| == |buf| && Keys(buf)[i] == Key(buf[i]) && Has(Keys(buf), buf[i].sn)
  {
    if i > 0 {
      KeysAt(buf[1..], i - 1);
    } else if |buf| > 1 {
      KeysAt(buf[1..], 0);
    } else {
      assert buf[1..] == [];
    }
  }

  /** dropCacheByUna drops exactly the segments below una. */
  lemma {:induction false} DropBelowKeeps(buf: seq<Seg>, una: nat, lo: nat, hi: nat, stream: seq<Frag>)
    requires Ordered(Keys(buf), lo, hi, stream)
    ensures var rest := DropBelow(buf, una);
            && Ordered(Keys(rest), FirstUnacked(rest, hi), hi, stream)
            && (rest != [] ==> lo <= rest[0].sn && una <= rest[0].sn)
            && (forall sn :: Has(Keys(buf), sn) && una <= sn ==> Has(Keys(rest), sn))
            && (forall sn :: Has(Keys(rest), sn) ==> Has(Keys(buf), sn) && una <= sn)
  {
    if buf != [] {
      if una <= buf[0].sn {
        forall sn | Has(Keys(buf), sn) ensures una <= sn { OrderedAbove(Keys(buf), buf[0].sn, hi, stream, sn); }
      } else {
        DropBelowKeeps(buf[1..], una, buf[0].sn + 1, hi, stream);
      }
    }
  }

  /** dropCacheByAck drops exactly the acknowledged segment. */
  lemma {:induction false} EraseSnKeeps(buf: seq<Seg>, ack: nat, lo: nat, hi: nat, stream: seq<Frag>)
    requires Ordered(Keys(buf), lo, hi, stream)
    ensures var rest := EraseSn(buf, ack);
            && Ordered(Keys(rest), lo, hi, stream)
            && (forall sn :: Has(Keys(buf), sn) && sn != ack ==> Has(Keys(rest), sn))
            && (forall sn :: Has(Keys(rest), sn) ==> Has(Keys(buf), sn) && sn != ack)
  {
    if buf != [] {
      if ack == buf[0].sn {
        OrderedWeakens(Keys(buf[1..]), buf[0].sn + 1, hi, stream, lo, hi, stream);
        forall sn | Has(Keys(buf[1..]), sn) ensures sn != ack { OrderedAbove(Keys(buf[1..]), buf[0].sn + 1, hi, stream, sn); }
      } else if ack < buf[0].sn {
        forall sn | Has(Keys(buf), sn) ensures sn != ack { OrderedAbove(Keys(buf), buf[0].sn, hi, stream, sn); }
      } else {
        EraseSnKeeps(buf[1..], ack, buf[0].sn + 1, hi, stream);
        assert ([buf[0]] + EraseSn(buf[1..], ack))[1..] == EraseSn(buf[1..], ack);
      }
    }
  }

  lemma {:induction false} BumpFastAckKeys(buf: seq<Seg>, sn: nat, ts: nat, conserve: bool)
    ensures Keys(BumpFastAck(buf, sn, ts, conserve)) == Keys(buf)
  {
    if buf != [] && sn >= buf[0].sn {
      BumpFastAckKeys(buf[1..], sn, ts, conserve);
    }
  }

  lemma {:induction false} TransmitAllKeys(buf: seq<Seg>, cfg: Config, rto: int, now: nat)
    ensures Keys(TransmitAll(buf, cfg, rto, now)) == Keys(buf)
  {
    if buf != [] {
      TransmitAllKeys(buf[1..], cfg, rto, now);
    }
  }

  /** handleCmdPush inserts a new segment in place and ignores a repeated one. */
  lemma {:induction false} InsertSortedKeeps(ks: seq<RSeg>, k: RSeg, lo: nat, hi: nat, stream: seq<Frag>)
    requires Ordered(ks, lo, hi, stream)
    requires lo <= k.sn < hi && k.sn < |stream| && k.frag == stream[k.sn]
    ensures Ordered(InsertSorted(ks, k), lo, hi, stream)
    ensures forall sn :: Has(InsertSorted(ks, k), sn) <==> Has(ks, sn) || sn == k.sn
  {
    if ks == [] {
      assert [k][1..] == [];
    } else if ks[0].sn > k.sn {
      assert ([k] + ks)[1..] == ks;
      OrderedWeakens(ks, ks[0].sn, hi, stream, k.sn + 1, hi, stream);
    } else if ks[0].sn < k.sn {
      InsertSortedKeeps(ks[1..], k, ks[0].sn + 1, hi, stream);
      assert ([ks[0]] + InsertSorted(ks[1..], k))[1..] == InsertSorted(ks[1..], k);
    }
  }
}
