/** A FAT32 volume on a card: the table that links clusters, and the bytes a chain of
    clusters spells. */
module FatChain {
  import opened Optional
  import opened Octets

  type Sector = s: seq<Byte> | |s| == 512 witness Zeros(512)

  /** The sectors of a card that can be read. */
  type Card = map<nat, Sector>

  /** What mounting finds out about the volume. */
  datatype Fs = Fs(ready: bool, partLba: nat, perCluster: nat, fatLba: nat, dataLba: nat, rootCluster: nat,
                   totalClusters: nat)
  {
    /** Every field fits its width, and a mounted volume has clusters that are not empty. */
    ghost predicate Fits() {
      && partLba < U32 && fatLba < U32 && dataLba < U32 && rootCluster < U32 && totalClusters < U32
      && perCluster < 256 && (ready ==> perCluster > 0 && rootCluster >= 2)
    }

    /** The bytes of a cluster. */
    function Span(): nat { perCluster * 512 }

    /** The block of the card that holds sector `s` of cluster `c`. */
    function Block(c: nat, s: nat): nat
      requires c >= 2
    {
      partLba + (dataLba + (c - 2) * perCluster) % U32 + s
    }

    /** The block and the place in it of the table entry of `c`. */
    function EntryBlock(c: nat): nat { partLba + (fatLba + c * 4 % U32 / 512) % U32 }
    function EntryAt(c: nat): (p: nat)
      ensures p + 4 <= 512
    {
      EntryIsInside(c);
      c * 4 % U32 % 512
    }

    /** The cluster behind `c`, or zero at the end of the chain, at a bad cluster, at a
        broken entry and when the table cannot be read. */
    function Next(card: Card, c: nat): (n: nat)
      ensures n == 0 || 2 <= n < 0x0FFF_FFF7
    {
      if EntryBlock(c) !in card then 0 else
        var v := Le32(card[EntryBlock(c)], EntryAt(c)) % 0x1000_0000;
        if v >= 0x0FFF_FFF7 || v < 2 || (totalClusters != 0 && v >= (totalClusters + 2) % U32) then 0 else v
    }

    /** Byte `k` of the clusters from `c` on, put end to end, if there is one to be read. */
    function ByteAt(card: Card, c: nat, k: nat): Option<Byte>
      requires perCluster > 0
      decreases k
    {
      if c < 2 then None
      else if k >= Span() then ByteAt(card, Next(card, c), k - Span())
      else if Block(c, k / 512) in card then Some(card[Block(c, k / 512)][k % 512])
      else None
    }

    /** Every one of the first `size` bytes can be read. */
    ghost predicate Reaches(card: Card, c: nat, size: nat)
      requires perCluster > 0
    {
      forall k | 0 <= k < size :: ByteAt(card, c, k).Some?
    }

    /** The first `|b|` bytes of the chain are `b`. */
    ghost predicate Spells(card: Card, c: nat, b: seq<Byte>)
      requires perCluster > 0
    {
      forall k | 0 <= k < |b| :: ByteAt(card, c, k) == Some(b[k])
    }
  }

  lemma EntryIsInside(c: nat)
    ensures c * 4 % U32 % 512 + 4 <= 512
  {
    var x := c * 4 % U32;
    assert x == 4 * (c - c * 4 / U32 * (U32 / 4));
    assert x % 512 == 4 * ((c - c * 4 / U32 * (U32 / 4)) - x / 512 * 128);
  }

  /** Cluster 2 starts where the data does, and behind the sectors of one cluster come those of the next,
      as long as their numbers fit 32 bits. */
  lemma ClustersInARow(fs: Fs, c: nat, s: nat)
    requires c >= 2 && fs.dataLba + (c - 1) * fs.perCluster < U32
    ensures fs.dataLba < U32 && fs.Block(2, s) == fs.partLba + fs.dataLba + s
    ensures fs.Block(c + 1, s) == fs.Block(c, fs.perCluster + s)
  {
    assert (c - 1) * fs.perCluster == (c - 2) * fs.perCluster + fs.perCluster;
    var n := fs.dataLba + (c - 2) * fs.perCluster;
    assert n % U32 == n && (n + fs.perCluster) % U32 == n + fs.perCluster;
  }

  /** The entries of the table stand behind each other, four bytes each, from where the table starts. */
  lemma EntriesInARow(fs: Fs, c: nat)
    requires c * 4 < U32 && fs.fatLba + c * 4 / 512 < U32
    ensures (fs.EntryBlock(c) - fs.partLba - fs.fatLba) * 512 + fs.EntryAt(c) == c * 4
  {
    assert c * 4 % U32 == c * 4 && (fs.fatLba + c * 4 / 512) % U32 == fs.fatLba + c * 4 / 512;
  }

  // ── Files as they are laid out ─────────────────────────────────────

  /** Part `i` of the file, as long as a cluster except for the last one. */
  function Piece(b: seq<Byte>, span: nat, i: nat): seq<Byte> {
    var from := i * span;
    if from >= |b| then [] else b[from..if from + span <= |b| then from + span else |b|]
  }

  /** The sectors of cluster `c` start with these bytes. */
  ghost predicate ClusterHolds(fs: Fs, card: Card, c: nat, piece: seq<Byte>)
    requires c >= 2
  {
    forall k | 0 <= k < |piece| :: fs.Block(c, k / 512) in card && card[fs.Block(c, k / 512)][k % 512] == piece[k]
  }

  /** A file stored in the clusters `cs`, in this order, with the table linking each to the next. */
  ghost predicate StoredIn(fs: Fs, card: Card, cs: seq<nat>, b: seq<Byte>) {
    && |b| <= |cs| * fs.Span()
    && (forall i | 0 <= i < |cs| :: cs[i] >= 2)
    && (forall i | 0 <= i < |cs| :: ClusterHolds(fs, card, cs[i], Piece(b, fs.Span(), i)))
    && (forall i | 0 < i < |cs| :: fs.Next(card, cs[i - 1]) == cs[i])
  }

  lemma PieceBehind(b: seq<Byte>, span: nat, i: nat)
    requires |b| >= span
    ensures Piece(b[span..], span, i) == Piece(b, span, i + 1)
  {
    assert (i + 1) * span == i * span + span;
  }

  /** A chain spells the file whose parts its clusters hold. */
  lemma {:induction false} StoredSpells(fs: Fs, card: Card, cs: seq<nat>, b: seq<Byte>)
    requires fs.perCluster > 0 && cs != [] && StoredIn(fs, card, cs, b)
    ensures fs.Spells(card, cs[0], b)
    decreases |cs|
  {
    var span := fs.Span();
    var first := Piece(b, span, 0);
    forall k | 0 <= k < |b| && k < span
      ensures fs.ByteAt(card, cs[0], k) == Some(b[k])
    {
      assert first[k] == b[k];
    }
    if |b| > span {
      RestIsStored(fs, card, cs, b);
      StoredSpells(fs, card, cs[1..], b[span..]);
      forall k | span <= k < |b|
        ensures fs.ByteAt(card, cs[0], k) == Some(b[k])
      {
        assert fs.Next(card, cs[1 - 1]) == cs[1];
        assert b[span..][k - span] == b[k];
      }
    }
  }

  lemma RestIsStored(fs: Fs, card: Card, cs: seq<nat>, b: seq<Byte>)
    requires cs != [] && StoredIn(fs, card, cs, b) && |b| > fs.Span()
    ensures |cs| > 1 && StoredIn(fs, card, cs[1..], b[fs.Span()..])
  {
    hide ClusterHolds;
    var span := fs.Span();
    assert |cs| * span == (|cs| - 1) * span + span;
    forall i | 0 <= i < |cs[1..]|
      ensures ClusterHolds(fs, card, cs[1..][i], Piece(b[span..], span, i))
    {
      PieceBehind(b, span, i);
      assert ClusterHolds(fs, card, cs[i + 1], Piece(b, span, i + 1));
    }
    forall i | 0 < i < |cs[1..]|
      ensures fs.Next(card, cs[1..][i - 1]) == cs[1..][i]
    {
      assert fs.Next(card, cs[(i + 1) - 1]) == cs[i + 1];
    }
  }
}
