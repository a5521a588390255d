/**
 Instances carry a bare id such as `i-bp1c65`; Master objects and nodes carry a
 provider id `region.i-bp1c65`. The code joins them with `strings.Contains`.
 This module shows when containment is the same as naming the same instance.
 */
module ProviderIds {
  import opened Strings

  /** One region, and ids of one width. */
  datatype Naming = Naming(region: string, width: nat) {

    /** Ids are free of dots, equally long, and longer than the region. */
    predicate BareId(id: string) {
      |id| == width && |region| < width && '.' !in id
    }

    function ProviderId(id: string): string {
      region + "." + id
    }

    predicate ValidProviderId(pid: string) {
      |region| < |pid| && BareId(Bare(pid)) && pid == ProviderId(Bare(pid))
    }

    /** The instance id behind `region.` */
    function Bare(pid: string): string
      requires |region| < |pid|
    {
      pid[|region| + 1..]
    }
  }

  /** A dot-free id can only sit left or right of the separating dot, and the region is too short for it. */
  lemma BareIdContained(nm: Naming, id: string, other: string)
    requires nm.BareId(id) && nm.BareId(other)
    ensures Contains(nm.ProviderId(id), other) <==> id == other
  {
    var pid := nm.ProviderId(id);
    var r := |nm.region|;
    if id == other {
      assert pid[r + 1..r + 1 + |other|] == other;
      assert OccursAt(pid, other, r + 1);
    }
    forall i | 0 <= i <= r
      ensures !OccursAt(pid, other, i)
    {
      assert pid[i..i + |other|][r - i] == '.';
    }
    if Contains(pid, other) {
      var i :| 0 <= i <= |pid| && OccursAt(pid, other, i);
      assert pid[r + 1..r + 1 + |other|] == id;
    }
  }

  /** Two provider ids have one length, so containment between them is equality. */
  lemma ProviderIdContained(nm: Naming, id: string, other: string)
    requires nm.BareId(id) && nm.BareId(other)
    ensures Contains(nm.ProviderId(id), nm.ProviderId(other)) <==> id == other
  {
    var pid, qid := nm.ProviderId(id), nm.ProviderId(other);
    if id == other {
      assert OccursAt(pid, qid, 0);
    }
    if Contains(pid, qid) {
      var i :| 0 <= i <= |pid| && OccursAt(pid, qid, i);
      assert pid == qid;
      assert pid[|nm.region| + 1..] == id && qid[|nm.region| + 1..] == other;
    }
  }

  lemma ProviderIdInjective(nm: Naming, id: string, other: string)
    requires nm.ProviderId(id) == nm.ProviderId(other)
    ensures id == other
  {
    assert nm.ProviderId(id)[|nm.region| + 1..] == id;
    assert nm.ProviderId(other)[|nm.region| + 1..] == other;
  }
}
