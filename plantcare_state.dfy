/**
 * The two-slot versioned sample store (src/helpers/plantcare_state.c), under
 * its sequential contract: one publisher, readers that do not interleave with it.
 */
module State {
  import opened CInt
  import opened PlantcareData

  /** The version after `v`: one more, wrapping around at 2^32 like a uint32. */
  function NextVersion(v: uint32): (n: uint32)
    ensures v < UINT32_MODULUS - 1 ==> n == v + 1
    ensures v == UINT32_MODULUS - 1 ==> n == 0
    ensures n % 2 != v % 2
  {
    (v + 1) % UINT32_MODULUS
  }

  /** The slot a version selects (`v & 1`). */
  function Slot(v: uint32): (i: nat)
    ensures i < 2
  {
    v % 2
  }

  /** Counting publishes modulo 2^32 agrees with stepping the version one publish at a time. */
  lemma {:induction false} VersionCountsPublishes(n: nat)
    ensures NextVersion(n % UINT32_MODULUS) == (n + 1) % UINT32_MODULUS
  {
  }

  class StatePlane {
    /** g_buf: the two sample slots. */
    const buf: array<Sample>
    /** g_version: the number of publishes so far, as a uint32. */
    var version: uint32
    /** Size of each sample's GPS sentence buffer; fixes the zero sample. */
    const sentenceSize: nat
    /** Every sample published so far, oldest first. */
    ghost var published: seq<Sample>

    /** The sample a reader should see: the last one published, or the zeroed slot before any. */
    ghost function Latest(): Sample
      reads this
    {
      if |published| == 0 then ZeroSample(sentenceSize) else published[|published| - 1]
    }

    /** The sample published before the latest one, or the zeroed slot if there is none. */
    ghost function Previous(): Sample
      reads this
    {
      if |published| < 2 then ZeroSample(sentenceSize) else published[|published| - 2]
    }

    ghost predicate Valid()
      reads this, buf
    {
      && buf.Length == 2
      && version == |published| % UINT32_MODULUS
      && buf[Slot(version)] == Latest()
      && buf[1 - Slot(version)] == Previous()
    }

    /** The static storage: both slots and the version zero-initialised. */
    constructor (sentenceSize: nat)
      ensures Valid() && fresh(buf)
      ensures version == 0 && published == []
      ensures buf[0] == ZeroSample(sentenceSize) && buf[1] == ZeroSample(sentenceSize)
    {
      this.sentenceSize := sentenceSize;
      buf := new Sample[2](_ => ZeroSample(sentenceSize));
      version := 0;
      published := [];
    }

    /**
     * plantcare_state_publish: writes the sample into the slot the next version
     * selects, then stores the next version. The other slot keeps the sample
     * published before.
     */
    method Publish(src: Sample)
      requires Valid()
      modifies this, buf
      ensures Valid()
      ensures published == old(published) + [src]
      ensures version == NextVersion(old(version))
      ensures buf[Slot(version)] == src
      ensures buf[Slot(old(version))] == old(buf[Slot(version)])
      ensures Latest() == src && Previous() == old(Latest())
    {
      VersionCountsPublishes(|published|);
      var next := NextVersion(version);
      buf[Slot(next)] := src;
      version := next;
      published := published + [src];
    }

    /**
     * plantcare_state_get_snapshot: reads the version, copies the slot it
     * selects, re-reads the version and retries while the two differ. With no
     * publish in between, the copy is the latest published sample and the loop
     * body runs exactly once. `prior` is what the caller's `*dst` held before.
     */
    method GetSnapshot(prior: Sample) returns (dst: Sample, ghost rounds: nat)
      requires Valid()
      ensures dst == Latest()
      ensures rounds == 1
    {
      var v1: uint32, v2: uint32 := 0, 0;
      var first := true;
      dst, rounds := prior, 0;
      while first || v1 != v2
        invariant first <==> rounds == 0
        invariant !first ==> v1 == v2 == version && dst == buf[Slot(v1)] && rounds == 1
        decreases if first then 1 else 0
      {
        v1 := version;
        dst := buf[Slot(v1)];
        v2 := version;
        first := false;
        rounds := rounds + 1;
      }
    }
  }
}
