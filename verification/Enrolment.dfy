/** Freshness of delegate enrolments (`VerifyBlockCertTx`, `GetDelegateEnrollByHeight`). */
module Enrolment {
  import opened Common

  /** A TX_CERT transaction: delegate `dest` enrols at height `nonce`. */
  datatype Cert = Cert(dest: Dest, nonce: nat)

  /** A primary block: its certificates, and the delegates that have the minimum vote once the block is applied. */
  datatype Block = Block(certs: seq<Cert>, enough: set<Dest>)

  /** A primary chain by height. */
  type Chain = seq<Block>

  // ----- what is carried and what storage files

  ghost predicate CarriedAt(chain: Chain, h: nat, c: Cert)
  {
    h < |chain| && c in chain[h].certs
  }

  /** Storage files a certificate when the delegate has the minimum vote at the block's parent. */
  ghost predicate RecordedAt(chain: Chain, h: nat, c: Cert)
  {
    0 < h < |chain| && c in chain[h].certs && c.dest in chain[h - 1].enough
  }

  ghost predicate RecordedSince(chain: Chain, from: nat, c: Cert)
  {
    exists h: nat :: from <= h && RecordedAt(chain, h, c)
  }

  /** The height test of the source, in 64-bit arithmetic. */
  predicate HeightRejected(nonce: nat, prevHeight: nat, interval: nat)
  {
    (nonce + interval) % TWO_64 < prevHeight || nonce > prevHeight
  }

  /** Wrap-around never lets a height through: exactly the last `interval + 1` heights are admissible. */
  lemma HeightWindow(nonce: nat, prevHeight: nat, interval: nat)
    requires nonce < TWO_64 && prevHeight + interval < TWO_64
    ensures !HeightRejected(nonce, prevHeight, interval) <==> nonce <= prevHeight <= nonce + interval
  {
    if nonce <= prevHeight {
      assert (nonce + interval) % TWO_64 == nonce + interval;
    }
  }

  /** `VerifyDelegateMinVote`: the delegate has the minimum vote at the height it enrols for. */
  predicate MinVote(chain: Chain, c: Cert)
  {
    c.nonce < |chain| && c.dest in chain[c.nonce].enough
  }

  // ----- the source

  /** The delegates that storage filed for the block of height `h` and enrolment height `nonce`. */
  method BlockEnroll(chain: Chain, h: nat, nonce: nat) returns (dests: set<Dest>)
    requires h < |chain|
    ensures forall d :: d in dests <==> RecordedAt(chain, h, Cert(d, nonce))
  {
    dests := {};
    if h > 0 {
      var certs := chain[h].certs;
      for i := 0 to |certs|
        invariant forall d :: d in dests <==> Cert(d, nonce) in certs[..i] && d in chain[h - 1].enough
      {
        if certs[i].nonce == nonce && certs[i].dest in chain[h - 1].enough {
          dests := dests + {certs[i].dest};
        }
      }
      assert certs[..|certs|] == certs;
    }
  }

  /** The delegates filed for `nonce` by the last `interval` blocks; no block is looked at near the chain's start. */
  method GetDelegateEnrollByHeight(chain: Chain, interval: nat, nonce: nat) returns (dests: set<Dest>)
    requires chain != []
    ensures forall d ::
              d in dests <==> |chain| - 1 >= interval && RecordedSince(chain, |chain| - interval, Cert(d, nonce))
  {
    dests := {};
    if |chain| - 1 >= interval {
      var i := 0;
      while i < interval
        invariant 0 <= i <= interval
        invariant forall d :: d in dests <==> RecordedSince(chain, |chain| - i, Cert(d, nonce))
      {
        var more := BlockEnroll(chain, |chain| - 1 - i, nonce);
        ExtendWindow(chain, |chain| - 1 - i, nonce);
        dests := dests + more;
        i := i + 1;
      }
    }
  }

  lemma ExtendWindow(chain: Chain, h: nat, nonce: nat)
    ensures forall d :: RecordedSince(chain, h, Cert(d, nonce)) <==>
                          RecordedAt(chain, h, Cert(d, nonce)) || RecordedSince(chain, h + 1, Cert(d, nonce))
  {
    forall d
      ensures RecordedSince(chain, h, Cert(d, nonce)) <==>
                RecordedAt(chain, h, Cert(d, nonce)) || RecordedSince(chain, h + 1, Cert(d, nonce))
    {
      var c := Cert(d, nonce);
      if RecordedSince(chain, h, c) {
        var k: nat :| h <= k && RecordedAt(chain, k, c);
        assert k == h || h + 1 <= k;
      }
      if RecordedSince(chain, h + 1, c) {
        var k: nat :| h + 1 <= k && RecordedAt(chain, k, c);
        assert h <= k;
      }
    }
  }

  ghost predicate CertOk(chain: Chain, c: Cert, interval: nat)
    requires chain != []
  {
    && !HeightRejected(c.nonce, |chain| - 1, interval)
    && MinVote(chain, c)
    && !(|chain| - 1 >= interval && RecordedSince(chain, |chain| - interval, c))
  }

  ghost predicate CertsOk(chain: Chain, certs: seq<Cert>, interval: nat)
    requires chain != []
  {
    && (forall c :: c in certs ==> CertOk(chain, c, interval))
    && (forall i, j :: 0 <= i < j < |certs| ==> certs[i] != certs[j])
  }

  method VerifyBlockCertTx(chain: Chain, certs: seq<Cert>, interval: nat) returns (ok: bool)
    requires chain != []
    ensures ok <==> CertsOk(chain, certs, interval)
  {
    var seen: set<Cert> := {};
    var i := 0;
    while i < |certs|
      invariant 0 <= i <= |certs|
      invariant CertsOk(chain, certs[..i], interval)
      invariant forall c :: c in seen <==> c in certs[..i]
    {
      var c := certs[i];
      var enrolled := GetDelegateEnrollByHeight(chain, interval, c.nonce);
      assert certs[..i + 1] == certs[..i] + [c];
      if HeightRejected(c.nonce, |chain| - 1, interval) || !MinVote(chain, c) || c.dest in enrolled || c in seen {
        assert c in certs && c == Cert(c.dest, c.nonce);
        assert c in seen ==> exists j :: 0 <= j < i && certs[j] == c;
        return false;
      }
      assert CertOk(chain, c, interval);
      seen := seen + {c};
      i := i + 1;
    }
    assert certs[..|certs|] == certs;
    ok := true;
  }

  // ----- freshness

  ghost predicate Accepted(chain: Chain, interval: nat)
  {
    && chain != [] && chain[0].certs == []
    && forall h :: 1 <= h < |chain| ==> CertsOk(chain[..h], chain[h].certs, interval)
  }

  /** Enrolment heights are 64-bit numbers. */
  ghost predicate Narrow(chain: Chain)
  {
    forall h, c :: 0 <= h < |chain| && c in chain[h].certs ==> c.nonce < TWO_64
  }

  /** For an admissible height, looking back over `interval` blocks sees everything any ancestor recorded. */
  lemma WindowSuffices(chain: Chain, interval: nat, c: Cert)
    requires Accepted(chain, interval) && Narrow(chain) && |chain| + interval < TWO_64 && |chain| - 1 >= interval
    requires c.nonce < TWO_64 && !HeightRejected(c.nonce, |chain| - 1, interval)
    ensures RecordedSince(chain, |chain| - interval, c) <==> RecordedSince(chain, 0, c)
  {
    HeightWindow(c.nonce, |chain| - 1, interval);
    if RecordedSince(chain, 0, c) {
      var h: nat :| 0 <= h && RecordedAt(chain, h, c);
      assert CertOk(chain[..h], c, interval);
      HeightWindow(c.nonce, h - 1, interval);
      assert |chain| - interval <= h;
    }
  }

  /**
   * A block past the first `interval` heights carries no enrolment twice, and none that an ancestor carried, unless the
   * delegate fell short of the minimum vote at that ancestor's parent.
   */
  lemma FreshEnrolment(chain: Chain, certs: seq<Cert>, interval: nat, c: Cert)
    requires Accepted(chain, interval) && Narrow(chain) && CertsOk(chain, certs, interval) && c in certs
             && c.nonce < TWO_64
    requires |chain| + interval < TWO_64 && |chain| - 1 >= interval
    ensures forall h :: CarriedAt(chain, h, c) ==> h > 0 && c.dest !in chain[h - 1].enough
    ensures forall i, j :: 0 <= i < j < |certs| ==> certs[i] != certs[j]
  {
    WindowSuffices(chain, interval, c);
    forall h | CarriedAt(chain, h, c) ensures h > 0 && c.dest !in chain[h - 1].enough {
      assert !RecordedAt(chain, h, c);
    }
  }

  /**
   * An otherwise admissible certificate is accepted exactly when the chain is still shorter than the interval, or the
   * delegate fell short of the minimum vote at the parent of every block that carried it before.
   */
  lemma AcceptedIff(chain: Chain, interval: nat, c: Cert)
    requires Accepted(chain, interval) && Narrow(chain) && |chain| + interval < TWO_64
    requires c.nonce < TWO_64 && MinVote(chain, c) && !HeightRejected(c.nonce, |chain| - 1, interval)
    ensures CertsOk(chain, [c], interval) <==>
              || |chain| - 1 < interval
              || forall h :: CarriedAt(chain, h, c) ==> h > 0 && c.dest !in chain[h - 1].enough
  {
    assert CertsOk(chain, [c], interval) <==> CertOk(chain, c, interval) by {
      assert [c][0] == c;
    }
    if |chain| - 1 >= interval {
      WindowSuffices(chain, interval, c);
      if RecordedSince(chain, 0, c) {
        var h: nat :| RecordedAt(chain, h, c);
        assert CarriedAt(chain, h, c);
      } else {
        forall h | CarriedAt(chain, h, c) ensures h > 0 && c.dest !in chain[h - 1].enough {
          assert !RecordedAt(chain, h, c);
        }
      }
    }
  }

  /** A short chain does admit the same enrolment in two blocks, with votes that never fall short. */
  lemma ShortChainRepeats(dest: Dest)
    ensures Accepted([Block([], {dest}), Block([Cert(dest, 0)], {dest}), Block([Cert(dest, 0)], {dest})], 10)
  {
    var c := Cert(dest, 0);
    var chain := [Block([], {dest}), Block([c], {dest}), Block([c], {dest})];
    assert chain[..1] == [chain[0]] && chain[..2] == [chain[0], chain[1]];
    assert CertOk(chain[..1], c, 10) && CertOk(chain[..2], c, 10);
  }

  /** So does a longer one: the votes are short at height 1, so block 2 is not filed and block 3 may repeat it. */
  lemma UnfiledRepeats(dest: Dest)
    ensures Accepted([Block([], {dest}), Block([], {}), Block([Cert(dest, 0)], {}), Block([Cert(dest, 0)], {})], 2)
  {
    var c := Cert(dest, 0);
    var chain := [Block([], {dest}), Block([], {}), Block([c], {}), Block([c], {})];
    assert chain[..1] == [chain[0]];
    assert chain[..2] == [chain[0], chain[1]];
    assert chain[..3] == [chain[0], chain[1], chain[2]];
    assert CertOk(chain[..2], c, 2);
    assert forall h :: !RecordedAt(chain[..3], h, c);
    assert CertOk(chain[..3], c, 2);
  }

  // ----- refusals

  /** A block is refused for one certificate that is too old or too new, or whose delegate fell short of the votes. */
  lemma CertRefused(chain: Chain, certs: seq<Cert>, interval: nat, c: Cert)
    requires chain != [] && c in certs && c.nonce < TWO_64 && |chain| + interval < TWO_64
    requires || c.nonce > |chain| - 1 || c.nonce + interval < |chain| - 1
             || c.dest !in chain[c.nonce].enough
    ensures !CertsOk(chain, certs, interval)
  {
    HeightWindow(c.nonce, |chain| - 1, interval);
  }

  /** It is refused for one that is there twice. */
  lemma RepeatRefused(chain: Chain, certs: seq<Cert>, interval: nat, i: nat, j: nat)
    requires chain != [] && i < j < |certs| && certs[i].dest == certs[j].dest && certs[i].nonce == certs[j].nonce
    ensures !CertsOk(chain, certs, interval)
  {
    assert certs[i] == certs[j];
  }
}
