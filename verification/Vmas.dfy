/**
 sched/vma.c: the list of valid user memory areas of a process.
 */
module Vmas {
  import opened Options

  datatype Vma = Vma(start: nat, end: nat, writable: bool)

  /** The first area that contains addr, in list order. */
  function FindVma(vmas: seq<Vma>, addr: nat): (r: Option<Vma>)
    ensures r.Some? ==> r.value in vmas && r.value.start <= addr < r.value.end
    ensures r.None? ==> forall a :: a in vmas ==> !(a.start <= addr < a.end)
  {
    if vmas == [] then None
    else if vmas[0].start <= addr < vmas[0].end then Some(vmas[0])
    else FindVma(vmas[1..], addr)
  }

  /** Areas before the one found do not contain the address. */
  lemma {:induction false} FoundFirst(vmas: seq<Vma>, addr: nat) returns (i: nat)
    requires FindVma(vmas, addr).Some?
    ensures i < |vmas| && vmas[i] == FindVma(vmas, addr).value
    ensures forall j :: 0 <= j < i ==> !(vmas[j].start <= addr < vmas[j].end)
  {
    if vmas[0].start <= addr < vmas[0].end {
      i := 0;
    } else {
      i := FoundFirst(vmas[1..], addr);
      assert forall j :: 0 < j < |vmas| ==> vmas[j] == vmas[1..][j - 1];
      i := i + 1;
    }
  }
}
