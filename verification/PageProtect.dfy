/**
  * runtime/libia2/ia2.c, protect_pages: the writable segments of a library are protected, page by page, except for
  * the pages of its shared sections and of its RELRO segment.
  */
module PageProtect {
  import opened Bytes

  const PAGE: nat := 0x1000
  const MAX_SECTIONS: nat := 4

  datatype Range = Range(start: nat, end: nat)

  datatype Kind = Load | Relro | Other

  datatype Phdr = Phdr(kind: Kind, read: bool, write: bool, exec: bool, vaddr: nat, memsz: nat)

  /** One call of mprotect: an address range and its access flags. */
  datatype Protection = Protection(start: nat, end: nat, read: bool, write: bool, exec: bool)

  // ----- 64-bit rounding

  /** The start of the page that holds the address. */
  function RoundDown(x: nat): (r: nat)
    ensures r % PAGE == 0 && r <= x % TWO64 < r + PAGE
  {
    x % TWO64 / PAGE * PAGE
  }

  /** The first page border from the address on; beyond the last one it wraps to 0. */
  function RoundUp(x: nat): (r: nat)
    ensures r % PAGE == 0
    ensures if x % TWO64 <= TWO64 - PAGE then x % TWO64 <= r < x % TWO64 + PAGE else r == 0
  {
    RoundDown(x % TWO64 + (PAGE - 1))
  }

  lemma AlignedFixpoint(x: nat)
    requires x < TWO64
    ensures RoundDown(x) == x <==> x % PAGE == 0
    ensures RoundUp(x) == x <==> x % PAGE == 0
  {
    assert x == x / PAGE * PAGE + x % PAGE;
    var y := x + (PAGE - 1);
    assert TWO64 == 0x10_0000_0000_0000 * PAGE;
    if x % PAGE == 0 {
      assert y / PAGE == x / PAGE;
    } else {
      assert y / PAGE == x / PAGE + 1;
    }
  }

  // ----- One segment

  ghost predicate Shared(ranges: seq<Range>, x: nat) {
    exists j :: 0 <= j < |ranges| && ranges[j].start <= x < ranges[j].end
  }

  lemma SharedBy(ranges: seq<Range>, j: nat)
    requires j < |ranges|
    ensures forall x: nat :: ranges[j].start <= x < ranges[j].end ==> Shared(ranges, x)
  {
  }

  /**
    * One pass over the shared ranges, in any order: skips what is shared at `start0` and finds an end before the next
    * shared address.
    */
  method Gap(start0: nat, segEnd: nat, ranges: seq<Range>) returns (start: nat, end: nat)
    requires start0 < segEnd
    ensures start0 <= start && end <= segEnd && (start > start0 || end > start)
    ensures forall x: nat :: start0 <= x < start ==> Shared(ranges, x)
    ensures forall x: nat :: start <= x < end ==> !Shared(ranges, x)
    ensures start in {start0} + (set r | r in ranges :: r.end) && end in {segEnd} + (set r | r in ranges :: r.start)
  {
    start, end := start0, segEnd;
    var j: nat := 0;
    while j < |ranges|
      invariant j <= |ranges| && start0 <= start && end <= segEnd && (start > start0 || end > start)
      invariant forall x: nat :: start0 <= x < start ==> Shared(ranges, x)
      invariant forall x: nat :: start <= x < end ==> !Shared(ranges[..j], x)
      invariant start in {start0} + (set r | r in ranges :: r.end) && end in {segEnd} + (set r | r in ranges :: r.start)
    {
      var r := ranges[j];
      assert r in ranges;
      SharedBy(ranges, j);
      SharedMore(ranges[..j], r);
      if r.start <= start && r.end > start {
        start := r.end;
      }
      if r.start > start && r.start < end {
        end := r.start;
      }
      assert ranges[..j + 1] == ranges[..j] + [r];
      j := j + 1;
    }
    assert ranges[..j] == ranges;
  }

  ghost predicate Covers(ps: seq<Protection>, x: nat) {
    exists i :: 0 <= i < |ps| && ps[i].start <= x < ps[i].end
  }

  /** Ascending and disjoint, so that no address is protected twice. */
  ghost predicate Ascending(ps: seq<Protection>) {
    && (forall i :: 0 <= i < |ps| ==> ps[i].start < ps[i].end)
    && (forall i, j :: 0 <= i < j < |ps| ==> ps[i].end <= ps[j].start)
  }

  ghost predicate Paged(ps: seq<Protection>) {
    forall i :: 0 <= i < |ps| ==> ps[i].start % PAGE == 0 && ps[i].end % PAGE == 0
  }

  ghost predicate PagedRanges(ranges: seq<Range>) {
    forall i :: 0 <= i < |ranges| ==> ranges[i].start % PAGE == 0 && ranges[i].end % PAGE == 0
  }

  ghost predicate Flagged(ps: seq<Protection>, p: Phdr) {
    forall i :: 0 <= i < |ps| ==> ps[i].read == p.read && ps[i].write == p.write && ps[i].exec == p.exec
  }

  /** What is protected of a segment is exactly the segment without the shared ranges. */
  method ProtectSegment(segStart: nat, segEnd: nat, ranges: seq<Range>, p: Phdr) returns (ps: seq<Protection>)
    requires segStart % PAGE == 0 && segEnd % PAGE == 0 && PagedRanges(ranges)
    ensures forall x: nat :: Covers(ps, x) <==> segStart <= x < segEnd && !Shared(ranges, x)
    ensures Ascending(ps) && Paged(ps) && Flagged(ps, p)
  {
    ps := [];
    var start := segStart;
    while start < segEnd
      invariant segStart <= start && start % PAGE == 0
      invariant forall x: nat :: Covers(ps, x) <==> segStart <= x < start && x < segEnd && !Shared(ranges, x)
      invariant Ascending(ps) && Paged(ps) && Flagged(ps, p)
      invariant forall i :: 0 <= i < |ps| ==> ps[i].end <= start
      decreases segEnd - start
    {
      var gap, end := Gap(start, segEnd, ranges);
      if end > gap {
        var q := Protection(gap, end, p.read, p.write, p.exec);
        CoversMore(ps, q);
        ps := ps + [q];
        start := end;
      } else {
        start := gap;
      }
    }
  }

  lemma CoversMore(ps: seq<Protection>, q: Protection)
    ensures forall x: nat :: Covers(ps + [q], x) <==> Covers(ps, x) || q.start <= x < q.end
  {
    forall x: nat ensures Covers(ps + [q], x) <==> Covers(ps, x) || q.start <= x < q.end {
      if Covers(ps, x) {
        var i :| 0 <= i < |ps| && ps[i].start <= x < ps[i].end;
        assert (ps + [q])[i] == ps[i];
      }
      assert (ps + [q])[|ps|] == q;
    }
  }

  // ----- The shared ranges

  /** A section given by two pointers; a NULL one ends the list, and so does the fourth. */
  ghost predicate Listed(sections: seq<Range>, i: nat) {
    i < |sections| && i < 4 && forall k :: 0 <= k <= i ==> sections[k].start != 0 && sections[k].end != 0
  }

  ghost predicate InSections(sections: seq<Range>, x: nat) {
    exists i: nat :: Listed(sections, i) && sections[i].start <= x < sections[i].end
  }

  ghost predicate FirstRelro(phdrs: seq<Phdr>, i: nat) {
    i < |phdrs| && phdrs[i].kind == Relro && forall k :: 0 <= k < i ==> phdrs[k].kind != Relro
  }

  function Segment(base: nat, p: Phdr): Range {
    Range(RoundDown(base + p.vaddr), RoundUp(base + p.vaddr + p.memsz))
  }

  /** The listed sections, which must be page-aligned: otherwise the process exits. */
  method SectionRanges(sections: seq<Range>) returns (r: Option<seq<Range>>)
    requires forall i :: 0 <= i < |sections| ==> sections[i].start < TWO64 && sections[i].end < TWO64
    ensures r == None <==> exists i: nat ::
              Listed(sections, i) && (sections[i].start % PAGE != 0 || sections[i].end % PAGE != 0)
    ensures r.Some? ==> PagedRanges(r.value) && forall x: nat :: Shared(r.value, x) <==> InSections(sections, x)
    ensures r.Some? ==> |r.value| <= MAX_SECTIONS
  {
    var i: nat := 0;
    while i < MAX_SECTIONS && i < |sections| && sections[i].start != 0 && sections[i].end != 0
      invariant i <= |sections| && i <= MAX_SECTIONS
      invariant forall k :: 0 <= k < i ==> sections[k].start != 0 && sections[k].end != 0
      invariant PagedRanges(sections[..i])
    {
      AlignedFixpoint(sections[i].start);
      AlignedFixpoint(sections[i].end);
      if RoundDown(sections[i].start) != sections[i].start || RoundUp(sections[i].end) != sections[i].end {
        assert Listed(sections, i);
        return None;
      }
      assert sections[..i + 1] == sections[..i] + [sections[i]];
      i := i + 1;
    }
    SectionsAre(sections, i);
    return Some(sections[..i]);
  }

  lemma SectionsAre(sections: seq<Range>, n: nat)
    requires n <= |sections| && n <= MAX_SECTIONS
    requires forall k :: 0 <= k < n ==> sections[k].start != 0 && sections[k].end != 0
    requires n < |sections| && n < MAX_SECTIONS ==> sections[n].start == 0 || sections[n].end == 0
    ensures forall i: nat :: Listed(sections, i) <==> i < n
    ensures forall x: nat :: Shared(sections[..n], x) <==> InSections(sections, x)
  {
    forall i: nat ensures Listed(sections, i) <==> i < n {
    }
    forall x: nat ensures Shared(sections[..n], x) <==> InSections(sections, x) {
      if InSections(sections, x) {
        var i: nat :| Listed(sections, i) && sections[i].start <= x < sections[i].end;
        assert sections[..n][i] == sections[i];
      }
      if Shared(sections[..n], x) {
        var i :| 0 <= i < n && sections[..n][i].start <= x < sections[..n][i].end;
        assert Listed(sections, i);
      }
    }
  }

  /** Everything that stays shared: the sections and the first RELRO segment. */
  ghost predicate Kept(sections: seq<Range>, phdrs: seq<Phdr>, base: nat, x: nat) {
    || InSections(sections, x)
    || exists i: nat :: FirstRelro(phdrs, i) && Segment(base, phdrs[i]).start <= x < Segment(base, phdrs[i]).end
  }

  method WithRelro(ranges: seq<Range>, phdrs: seq<Phdr>, base: nat, ghost sections: seq<Range>)
    returns (all: seq<Range>)
    requires PagedRanges(ranges) && forall x: nat :: Shared(ranges, x) <==> InSections(sections, x)
    ensures PagedRanges(all) && forall x: nat :: Shared(all, x) <==> Kept(sections, phdrs, base, x)
  {
    var i: nat := 0;
    while i < |phdrs| && phdrs[i].kind != Relro
      invariant i <= |phdrs| && forall k :: 0 <= k < i ==> phdrs[k].kind != Relro
    {
      i := i + 1;
    }
    if i == |phdrs| {
      return ranges;
    }
    assert FirstRelro(phdrs, i) && forall k: nat :: FirstRelro(phdrs, k) ==> k == i;
    all := ranges + [Segment(base, phdrs[i])];
    SharedMore(ranges, Segment(base, phdrs[i]));
  }

  lemma SharedMore(ranges: seq<Range>, r: Range)
    ensures forall x: nat :: Shared(ranges + [r], x) <==> Shared(ranges, x) || r.start <= x < r.end
  {
    forall x: nat ensures Shared(ranges + [r], x) <==> Shared(ranges, x) || r.start <= x < r.end {
      if Shared(ranges, x) {
        var i :| 0 <= i < |ranges| && ranges[i].start <= x < ranges[i].end;
        assert (ranges + [r])[i] == ranges[i];
      }
      assert (ranges + [r])[|ranges|] == r;
    }
  }

  // ----- By addresses

  /** The addresses of a program header do not reach the last page of memory. */
  ghost predicate Low(base: nat, p: Phdr) {
    base + p.vaddr + p.memsz <= TWO64 - PAGE
  }

  /** The address is on a page that starts before `hi`, and is not before the page of `lo`. */
  ghost predicate OnPages(lo: nat, hi: nat, x: nat) {
    lo / 4096 <= x / 4096 && x / 4096 * 4096 < hi
  }

  /** These are the addresses from `lo` up to `hi`, and on either side less than a page more. */
  lemma OnPagesIs(lo: nat, hi: nat, x: nat)
    ensures lo <= x < hi ==> OnPages(lo, hi, x)
    ensures OnPages(lo, hi, x) ==> lo < x + 4096 && x < hi + 4096
  {
  }

  lemma SegmentPages(base: nat, p: Phdr, x: nat)
    requires Low(base, p)
    ensures Segment(base, p).start <= x < Segment(base, p).end <==>
              OnPages(base + p.vaddr, base + p.vaddr + p.memsz, x)
  {
    var lo, hi := base + p.vaddr, base + p.vaddr + p.memsz;
    assert lo % TWO64 == lo && hi % TWO64 == hi;
    PageStart(lo, RoundDown(lo), x);
    PageEnd(hi, RoundUp(hi), x);
  }

  lemma PageStart(lo: nat, r: nat, x: nat)
    requires r % PAGE == 0 && r <= lo < r + PAGE
    ensures r <= x <==> lo / 4096 <= x / 4096
  {
    assert r / PAGE == lo / PAGE;
  }

  lemma PageEnd(hi: nat, r: nat, x: nat)
    requires r % PAGE == 0 && hi <= r < hi + PAGE
    ensures x < r <==> x / 4096 * 4096 < hi
  {
  }

  /** The address is on a page of the first RELRO segment. */
  ghost predicate OnRelro(phdrs: seq<Phdr>, base: nat, x: nat) {
    exists i: nat :: FirstRelro(phdrs, i)
                     && OnPages(base + phdrs[i].vaddr, base + phdrs[i].vaddr + phdrs[i].memsz, x)
  }

  /** Protected are the pages of a writable LOAD segment, except for the sections and the pages of the RELRO segment. */
  ghost predicate ByAddress(ps: seq<Protection>, p: Phdr, base: nat, sections: seq<Range>, phdrs: seq<Phdr>) {
    forall x: nat :: Covers(ps, x) <==>
      && p.kind == Load && p.write && OnPages(base + p.vaddr, base + p.vaddr + p.memsz, x)
      && !InSections(sections, x) && !OnRelro(phdrs, base, x)
  }

  lemma ExactByAddress(ps: seq<Protection>, p: Phdr, base: nat, sections: seq<Range>, phdrs: seq<Phdr>)
    requires Exact(ps, p, base, sections, phdrs) && Low(base, p)
    requires forall i :: 0 <= i < |phdrs| ==> Low(base, phdrs[i])
    ensures ByAddress(ps, p, base, sections, phdrs)
  {
    forall x: nat
      ensures Covers(ps, x) <==>
                && p.kind == Load && p.write && OnPages(base + p.vaddr, base + p.vaddr + p.memsz, x)
                && !InSections(sections, x) && !OnRelro(phdrs, base, x)
    {
      SegmentPages(base, p, x);
      forall i: nat | FirstRelro(phdrs, i)
        ensures Segment(base, phdrs[i]).start <= x < Segment(base, phdrs[i]).end <==>
                  OnPages(base + phdrs[i].vaddr, base + phdrs[i].vaddr + phdrs[i].memsz, x)
      {
        SegmentPages(base, phdrs[i], x);
      }
      assert Kept(sections, phdrs, base, x) <==> InSections(sections, x) || OnRelro(phdrs, base, x);
    }
  }

  /**
    * Of a segment, every address that is kept neither by a section nor on a page of the RELRO segment is protected, and
    * nothing a page or more outside it, in a section, or in the RELRO segment is.
    */
  lemma AddressesProtected(ps: seq<Protection>, p: Phdr, base: nat, sections: seq<Range>, phdrs: seq<Phdr>, x: nat)
    requires ByAddress(ps, p, base, sections, phdrs)
    ensures p.kind == Load && p.write && base + p.vaddr <= x < base + p.vaddr + p.memsz ==>
              Covers(ps, x) || InSections(sections, x) || OnRelro(phdrs, base, x)
    ensures Covers(ps, x) ==> base + p.vaddr < x + 4096 && x < base + p.vaddr + p.memsz + 4096
    ensures Covers(ps, x) ==> forall i: nat :: FirstRelro(phdrs, i) ==>
              !(base + phdrs[i].vaddr <= x < base + phdrs[i].vaddr + phdrs[i].memsz)
  {
    OnPagesIs(base + p.vaddr, base + p.vaddr + p.memsz, x);
    forall i: nat | FirstRelro(phdrs, i)
      ensures base + phdrs[i].vaddr <= x < base + phdrs[i].vaddr + phdrs[i].memsz ==> OnRelro(phdrs, base, x)
    {
      OnPagesIs(base + phdrs[i].vaddr, base + phdrs[i].vaddr + phdrs[i].memsz, x);
    }
  }

  // ----- All segments

  /** The protections of one program header. */
  ghost predicate Exact(ps: seq<Protection>, p: Phdr, base: nat, sections: seq<Range>, phdrs: seq<Phdr>) {
    && Ascending(ps) && Paged(ps) && Flagged(ps, p)
    && forall x: nat :: Covers(ps, x) <==>
         && p.kind == Load && p.write
         && Segment(base, p).start <= x < Segment(base, p).end && !Kept(sections, phdrs, base, x)
  }

  /**
    * protect_pages on a library that is to be protected: for every program header, exactly the pages of a writable
    * LOAD segment that are not kept shared, each once.
    */
  method ProtectPages(phdrs: seq<Phdr>, base: nat, sections: seq<Range>) returns (r: Option<seq<seq<Protection>>>)
    requires forall i :: 0 <= i < |sections| ==> sections[i].start < TWO64 && sections[i].end < TWO64
    ensures r == None <==> exists i: nat ::
              Listed(sections, i) && (sections[i].start % PAGE != 0 || sections[i].end % PAGE != 0)
    ensures r.Some? ==> |r.value| == |phdrs|
    ensures r.Some? ==> forall i :: 0 <= i < |phdrs| ==> Exact(r.value[i], phdrs[i], base, sections, phdrs)
    ensures r.Some? && (forall i :: 0 <= i < |phdrs| ==> Low(base, phdrs[i])) ==>
              forall i :: 0 <= i < |phdrs| ==> ByAddress(r.value[i], phdrs[i], base, sections, phdrs)
  {
    var collected := SectionRanges(sections);
    if collected == None {
      return None;
    }
    var ranges := WithRelro(collected.value, phdrs, base, sections);
    var out: seq<seq<Protection>> := [];
    for i := 0 to |phdrs|
      invariant |out| == i && forall k :: 0 <= k < i ==> Exact(out[k], phdrs[k], base, sections, phdrs)
    {
      var p, ps := phdrs[i], [];
      if p.kind == Load && p.write {
        ps := ProtectSegment(Segment(base, p).start, Segment(base, p).end, ranges, p);
      }
      assert Exact(ps, p, base, sections, phdrs);
      out := out + [ps];
    }
    if forall i :: 0 <= i < |phdrs| ==> Low(base, phdrs[i]) {
      forall i | 0 <= i < |phdrs| ensures ByAddress(out[i], phdrs[i], base, sections, phdrs) {
        ExactByAddress(out[i], phdrs[i], base, sections, phdrs);
      }
    }
    return Some(out);
  }
}
