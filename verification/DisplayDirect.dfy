/**
 * Direct mode of the display port: after the last flush of a refresh, the pixel DMA engine copies the
 * dirty areas one by one from the drawn buffer to the buffer the LCD controller shows. The first copy is
 * started by the flush callback, each further one by the interrupt that ends the previous one.
 */
module DisplayDirect {

  import opened Arithmetic

  type Pixel = bv16

  datatype Area = Area(x1: nat, y1: nat, x2: nat, y2: nat)

  // ---------------------------------------------------------------- pixels

  predicate OnScreen(a: Area, w: nat, h: nat) {
    a.x1 <= a.x2 < w && a.y1 <= a.y2 < h
  }

  function Col(i: nat, w: nat): nat
    requires 0 < w
  {
    i % w
  }

  function Row(i: nat, w: nat): nat
    requires 0 < w
  {
    i / w
  }

  predicate Covers(a: Area, i: nat, w: nat)
    requires 0 < w
  {
    a.x1 <= Col(i, w) <= a.x2 && a.y1 <= Row(i, w) <= a.y2
  }

  /** An area is a rectangle that includes both of its corners. */
  lemma CoversIs(a: Area, x: nat, y: nat, w: nat)
    requires x < w
    ensures Covers(a, Flat(x, y, w), w) <==> a.x1 <= x <= a.x2 && a.y1 <= y <= a.y2
  {
    FlatRowCol(x, y, w);
  }

  /** Where pixel (x, y) lies. */
  function Flat(x: nat, y: nat, w: nat): nat {
    y * w + x
  }

  lemma FlatRowCol(x: nat, y: nat, w: nat)
    requires x < w
    ensures Row(Flat(x, y, w), w) == y && Col(Flat(x, y, w), w) == x
  {
    var i := Flat(x, y, w);
    FlatInverse(i, w);
    var q := Row(i, w);
    assert (q + 1) * w == q * w + w && (y + 1) * w == y * w + w;
    if q + 1 <= y {
      MulMono(q + 1, y, w);
    }
    if y + 1 <= q {
      MulMono(y + 1, q, w);
    }
  }

  lemma FlatInverse(i: nat, w: nat)
    requires 0 < w
    ensures i == Flat(Col(i, w), Row(i, w), w)
  {
  }

  lemma FlatBound(x: nat, y: nat, w: nat, h: nat)
    requires x < w && y < h
    ensures Flat(x, y, w) < h * w
  {
    MulMono(y + 1, h, w);
    assert (y + 1) * w == y * w + w;
  }

  /** A run of n pixels from (x, y) on is the part of row y between those columns. */
  lemma RunIsRowPart(x: nat, y: nat, n: nat, w: nat, i: nat)
    requires x + n <= w && 0 < n
    ensures Flat(x, y, w) <= i < Flat(x, y, w) + n <==> Row(i, w) == y && x <= Col(i, w) < x + n
  {
    FlatInverse(i, w);
    if Flat(x, y, w) <= i < Flat(x, y, w) + n {
      FlatRowCol(i - y * w, y, w);
    }
  }

  /** One area copied from src to dst. */
  function Copied(dst: seq<Pixel>, src: seq<Pixel>, a: Area, w: nat): (r: seq<Pixel>)
    requires 0 < w && |dst| <= |src|
    ensures |r| == |dst|
    ensures forall i :: 0 <= i < |dst| ==> r[i] == if Covers(a, i, w) then src[i] else dst[i]
  {
    seq(|dst|, i requires 0 <= i < |dst| => if Covers(a, i, w) then src[i] else dst[i])
  }

  // ---------------------------------------------------------------- the list of areas

  /** The copies still to be made when areas 0..p are left: from the top of the list down, joined ones left out. */
  function Pending(joined: seq<bool>, p: nat): seq<nat>
    requires p <= |joined|
  {
    if p == 0 then [] else (if joined[p - 1] then [] else [p - 1]) + Pending(joined, p - 1)
  }

  /** Each area that is not joined comes exactly once, and no other; the order is from the top down. */
  lemma {:induction false} PendingExact(joined: seq<bool>, p: nat)
    requires p <= |joined|
    ensures forall k: nat :: k in Pending(joined, p) <==> k < p && !joined[k]
    ensures forall a, b :: 0 <= a < b < |Pending(joined, p)| ==> Pending(joined, p)[a] > Pending(joined, p)[b]
  {
    if p > 0 {
      PendingExact(joined, p - 1);
      var rest := Pending(joined, p - 1);
      forall b | 0 <= b < |rest|
        ensures rest[b] < p - 1
      {
        assert rest[b] in rest;
      }
    }
  }

  predicate Indexes(todo: seq<nat>, n: nat) {
    forall j :: 0 <= j < |todo| ==> todo[j] < n
  }

  function Head(todo: seq<nat>): seq<nat> {
    if todo == [] then [] else [todo[0]]
  }

  function Tail(todo: seq<nat>): seq<nat> {
    if todo == [] then [] else todo[1..]
  }

  /** The screen after these copies have been made in order. */
  function After(dst: seq<Pixel>, src: seq<Pixel>, areas: seq<Area>, todo: seq<nat>, w: nat): (r: seq<Pixel>)
    requires 0 < w && |dst| <= |src| && Indexes(todo, |areas|)
    ensures |r| == |dst|
    decreases |todo|
  {
    if todo == [] then dst else After(Copied(dst, src, areas[todo[0]], w), src, areas, todo[1..], w)
  }

  /** Overlaps do not matter: the copies show the drawn buffer on the union of their areas, nothing else changes. */
  lemma {:induction false} AfterIsUnion(dst: seq<Pixel>, src: seq<Pixel>, areas: seq<Area>, todo: seq<nat>, w: nat)
    requires 0 < w && |dst| <= |src| && Indexes(todo, |areas|)
    ensures forall i :: 0 <= i < |dst| ==>
              After(dst, src, areas, todo, w)[i] ==
              if exists j :: 0 <= j < |todo| && Covers(areas[todo[j]], i, w) then src[i] else dst[i]
    decreases |todo|
  {
    if todo != [] {
      var once, rest := Copied(dst, src, areas[todo[0]], w), todo[1..];
      AfterIsUnion(once, src, areas, rest, w);
      forall i | 0 <= i < |dst|
        ensures (exists j :: 0 <= j < |todo| && Covers(areas[todo[j]], i, w)) <==>
                Covers(areas[todo[0]], i, w) || exists j :: 0 <= j < |rest| && Covers(areas[rest[j]], i, w)
      {
        if j :| 0 <= j < |todo| && Covers(areas[todo[j]], i, w) {
          assert j == 0 || todo[j] == rest[j - 1];
        }
        if j :| 0 <= j < |rest| && Covers(areas[rest[j]], i, w) {
          assert rest[j] == todo[j + 1];
        }
      }
    }
  }

  /** What the copies still to be made will leave on the screen, and all the copies there will have been. */
  ghost predicate LeadsTo(todo: seq<nat>, dst: seq<Pixel>, copied: seq<nat>, src: seq<Pixel>, areas: seq<Area>, w: nat,
                          screen: seq<Pixel>, all: seq<nat>)
  {
    && 0 < w && |dst| <= |src| && Indexes(todo, |areas|)
    && After(dst, src, areas, todo, w) == screen
    && copied + Tail(todo) == all
  }

  lemma LeadsFirst(todo: seq<nat>, dst: seq<Pixel>, copied: seq<nat>, src: seq<Pixel>, areas: seq<Area>, w: nat)
    requires 0 < w && |dst| <= |src| && Indexes(todo, |areas|)
    ensures LeadsTo(todo, dst, copied + Head(todo), src, areas, w, After(dst, src, areas, todo, w), copied + todo)
  {
    assert todo == Head(todo) + Tail(todo);
  }

  lemma LeadsOn(todo: seq<nat>, dst: seq<Pixel>, copied: seq<nat>, src: seq<Pixel>, areas: seq<Area>, w: nat,
                screen: seq<Pixel>, all: seq<nat>)
    requires todo != [] && LeadsTo(todo, dst, copied, src, areas, w, screen, all)
    ensures LeadsTo(todo[1..], Copied(dst, src, areas[todo[0]], w), copied + Head(todo[1..]), src, areas, w,
                    screen, all)
  {
    assert todo[1..] == Head(todo[1..]) + Tail(todo[1..]);
  }

  predicate Shows(areas: seq<Area>, joined: seq<bool>, k: nat, i: nat, w: nat)
    requires 0 < w && |areas| == |joined|
  {
    k < |areas| && !joined[k] && Covers(areas[k], i, w)
  }

  /** The union over the pending copies is the union over the areas that are not joined. */
  lemma PendingUnion(areas: seq<Area>, joined: seq<bool>, todo: seq<nat>, i: nat, w: nat)
    requires 0 < w && |areas| == |joined|
    requires todo == Pending(joined, |joined|) && Indexes(todo, |areas|)
    ensures (exists j :: 0 <= j < |todo| && Covers(areas[todo[j]], i, w)) <==>
            (exists k :: Shows(areas, joined, k, i, w))
  {
    PendingExact(joined, |joined|);
    if k :| Shows(areas, joined, k, i, w) {
      assert k in todo;
      var j :| 0 <= j < |todo| && todo[j] == k;
      assert Covers(areas[todo[j]], i, w);
    }
    if j :| 0 <= j < |todo| && Covers(areas[todo[j]], i, w) {
      assert todo[j] in todo;
      assert Shows(areas, joined, todo[j], i, w);
    }
  }

  // ---------------------------------------------------------------- refresh after refresh

  /** What the draw buffer holds at the flushes before the last one and at the last, and what is to be copied. */
  datatype Refresh = Refresh(early: seq<seq<Pixel>>, picture: seq<Pixel>, areas: seq<Area>, joined: seq<bool>)

  predicate Fits(r: Refresh, w: nat, h: nat) {
    && |r.picture| == h * w && |r.areas| == |r.joined|
    && (forall k :: 0 <= k < |r.early| ==> |r.early[k]| == h * w)
    && (forall k :: 0 <= k < |r.areas| ==> OnScreen(r.areas[k], w, h))
  }

  predicate AllFit(rs: seq<Refresh>, w: nat, h: nat) {
    forall k :: 0 <= k < |rs| ==> Fits(rs[k], w, h)
  }

  ghost predicate Refreshed(r: Refresh, i: nat, w: nat)
    requires 0 < w && |r.areas| == |r.joined|
  {
    exists k :: Shows(r.areas, r.joined, k, i, w)
  }

  ghost function Shown(screen: seq<Pixel>, r: Refresh, w: nat): (s: seq<Pixel>)
    requires 0 < w && |r.areas| == |r.joined| && |r.picture| == |screen|
    ensures |s| == |screen|
    ensures forall i :: 0 <= i < |s| ==> s[i] == if Refreshed(r, i, w) then r.picture[i] else screen[i]
  {
    seq(|screen|, i requires 0 <= i < |screen| => if Refreshed(r, i, w) then r.picture[i] else screen[i])
  }

  /** The screen after the first n refreshes. */
  ghost function ShownAfter(screen: seq<Pixel>, rs: seq<Refresh>, n: nat, w: nat, h: nat): (s: seq<Pixel>)
    requires 0 < w && |screen| == h * w && n <= |rs| && AllFit(rs, w, h)
    ensures |s| == |screen|
  {
    if n == 0 then screen else Shown(ShownAfter(screen, rs, n - 1, w, h), rs[n - 1], w)
  }

  /** What has been drawn by then. */
  function Drawn(screen: seq<Pixel>, rs: seq<Refresh>, n: nat, w: nat, h: nat): (s: seq<Pixel>)
    requires |screen| == h * w && n <= |rs| && AllFit(rs, w, h)
    ensures |s| == |screen|
  {
    if n == 0 then screen else rs[n - 1].picture
  }

  /** A refresh draws differently from before only where it also copies. */
  ghost predicate Confined(was: seq<Pixel>, r: Refresh, w: nat)
    requires 0 < w && |r.areas| == |r.joined| && |r.picture| == |was|
  {
    forall i :: 0 <= i < |was| && !Refreshed(r, i, w) ==> r.picture[i] == was[i]
  }

  lemma ShownIsPictureIff(was: seq<Pixel>, r: Refresh, w: nat)
    requires 0 < w && |r.areas| == |r.joined| && |r.picture| == |was|
    ensures Shown(was, r, w) == r.picture <==> Confined(was, r, w)
  {
    if Shown(was, r, w) == r.picture {
      forall i | 0 <= i < |was| && !Refreshed(r, i, w)
        ensures r.picture[i] == was[i]
      {
        assert Shown(was, r, w)[i] == was[i];
      }
    }
  }

  /** After refresh number k the screen shows all that is drawn, not only the areas just copied. */
  ghost predicate Whole(screen: seq<Pixel>, rs: seq<Refresh>, k: nat, w: nat, h: nat)
    requires 0 < w && |screen| == h * w && k < |rs| && AllFit(rs, w, h)
  {
    ShownAfter(screen, rs, k + 1, w, h) == Drawn(screen, rs, k + 1, w, h)
  }

  ghost predicate ConfinedAt(screen: seq<Pixel>, rs: seq<Refresh>, k: nat, w: nat, h: nat)
    requires 0 < w && |screen| == h * w && k < |rs| && AllFit(rs, w, h)
  {
    Confined(Drawn(screen, rs, k, w, h), rs[k], w)
  }

  lemma WholeNextIff(screen: seq<Pixel>, rs: seq<Refresh>, k: nat, w: nat, h: nat)
    requires 0 < w && |screen| == h * w && k < |rs| && AllFit(rs, w, h)
    requires k == 0 || Whole(screen, rs, k - 1, w, h)
    ensures Whole(screen, rs, k, w, h) <==> ConfinedAt(screen, rs, k, w, h)
  {
    ShownIsPictureIff(Drawn(screen, rs, k, w, h), rs[k], w);
  }

  predicate Follows(ps: seq<bool>, qs: seq<bool>, k: nat)
    requires k < |ps| == |qs|
  {
    (k == 0 || ps[k - 1]) ==> ps[k] == qs[k]
  }

  lemma {:induction false} AllIff(ps: seq<bool>, qs: seq<bool>, n: nat)
    requires n <= |ps| == |qs| && forall k :: 0 <= k < n ==> Follows(ps, qs, k)
    ensures (forall k :: 0 <= k < n ==> ps[k]) <==> (forall k :: 0 <= k < n ==> qs[k])
  {
    if n > 0 {
      AllIff(ps, qs, n - 1);
      if forall k :: 0 <= k < n - 1 ==> ps[k] {
        assert Follows(ps, qs, n - 1);
      }
    }
  }

  /**
   * Over any run of refreshes that starts with the screen showing what is drawn: after each of them it shows
   * the whole picture exactly when each is confined to what it copies.
   */
  lemma WholePictureIff(screen: seq<Pixel>, rs: seq<Refresh>, n: nat, w: nat, h: nat)
    requires 0 < w && |screen| == h * w && n <= |rs| && AllFit(rs, w, h)
    ensures (forall k :: 0 <= k < n ==> Whole(screen, rs, k, w, h)) <==>
            (forall k :: 0 <= k < n ==> ConfinedAt(screen, rs, k, w, h))
  {
    var ps := seq(n, k requires 0 <= k < n => Whole(screen, rs, k, w, h));
    var qs := seq(n, k requires 0 <= k < n => ConfinedAt(screen, rs, k, w, h));
    forall k | 0 <= k < n
      ensures Follows(ps, qs, k)
    {
      if k == 0 || ps[k - 1] {
        WholeNextIff(screen, rs, k, w, h);
      }
    }
    AllIff(ps, qs, n);
    assert forall k :: 0 <= k < n ==> ps[k] == Whole(screen, rs, k, w, h);
    assert forall k :: 0 <= k < n ==> qs[k] == ConfinedAt(screen, rs, k, w, h);
  }

  /** The flush callbacks of the first n refreshes. */
  function Flushes(rs: seq<Refresh>, n: nat): nat
    requires n <= |rs|
  {
    if n == 0 then 0 else Flushes(rs, n - 1) + |rs[n - 1].early| + 1
  }

  // ---------------------------------------------------------------- the driver

  /** What the engine has been told: where to read, where to write, line pitches and size, in pixels. */
  datatype Job = NoJob | Job(src: nat, dst: nat, srcPitch: nat, dstPitch: nat, width: nat, height: nat)

  class LvAdapter {
    const w: nat
    const h: nat
    const draw: array<Pixel>
    const lcdc: array<Pixel>
    var invP: nat
    var areas: seq<Area>
    var joined: seq<bool>
    var job: Job
    var ready: nat
    ghost var copied: seq<nat>

    ghost predicate Valid()
      reads this
    {
      && 0 < w && 0 < h && draw != lcdc && draw.Length == lcdc.Length == h * w
      && invP <= |joined| == |areas|
      && (forall k :: 0 <= k < |areas| ==> OnScreen(areas[k], w, h))
    }

    constructor (w: nat, h: nat)
      requires 0 < w && 0 < h
      ensures Valid() && job == NoJob && ready == 0 && this.w == w && this.h == h
      ensures fresh(draw) && fresh(lcdc)
    {
      this.w, this.h := w, h;
      draw := new Pixel[h * w](_ => 0);
      lcdc := new Pixel[h * w](_ => 0);
      invP, areas, joined, job, ready, copied := 0, [], [], NoJob, 0, [];
    }

    /** The job set up for area k. */
    function JobFor(a: Area): Job
      requires a.x1 <= a.x2 && a.y1 <= a.y2
    {
      Job(Flat(a.x1, a.y1, w), Flat(a.x1, a.y1, w), w, w, a.x2 - a.x1 + 1, a.y2 - a.y1 + 1)
    }

    /** `lvgl_pdma_blit`. */
    method Blit(dstStride: nat, srcStride: nat, x: nat, y: nat, width: nat, height: nat)
      modifies this`job
      ensures job == Job(Flat(x, y, srcStride), Flat(x, y, dstStride), srcStride, dstStride, width, height)
    {
      job := Job(y * srcStride + x, y * dstStride + x, srcStride, dstStride, width, height);
    }

    method FlushReady()
      modifies this`ready
      ensures ready == old(ready) + 1
    {
      ready := ready + 1;
    }

    /**
     * Common loop of `lvgl_pdma_start` and `lvgl_pdma_done`: go down the list to the next area that is not
     * joined and start its copy; if there is none, the refresh is finished.
     */
    method NextArea()
      requires Valid() && 0 < invP && job == NoJob
      modifies this`invP, this`job, this`ready, this`copied
      ensures Valid() && Chain(Pending(joined, old(invP)), old(ready))
      ensures copied == old(copied) + Head(Pending(joined, old(invP)))
    {
      ghost var p := invP;
      while invP > 0
        invariant invP <= p && Valid() && job == NoJob && copied == old(copied)
        invariant Pending(joined, invP) == Pending(joined, p)
        invariant ready == old(ready) + if invP == 0 then 1 else 0
      {
        invP := invP - 1;
        if joined[invP] {
          if invP == 0 {
            FlushReady();
          }
          continue;
        }
        var area := areas[invP];
        copied := copied + [invP];
        Blit(w, w, area.x1, area.y1, area.x2 - area.x1 + 1, area.y2 - area.y1 + 1);
        break;
      }
    }

    /**
     * Where the chain stands with `todo` still to be copied: the first of them is in progress and the list
     * holds the rest, or nothing is left and flush-ready has been signalled once.
     */
    ghost predicate Chain(todo: seq<nat>, wasReady: nat)
      requires Valid()
      reads this
    {
      if job == NoJob then todo == [] && ready == wasReady + 1
      else
        && todo != [] && todo[0] < |areas| && job == JobFor(areas[todo[0]])
        && Pending(joined, invP) == todo[1..] && ready == wasReady
    }

    /** `lvgl_pdma_start`. */
    method PdmaStart()
      requires Valid() && job == NoJob
      modifies this`invP, this`job, this`ready, this`copied
      ensures Valid() && Chain(Pending(joined, old(invP)), old(ready))
      ensures copied == old(copied) + Head(Pending(joined, old(invP)))
    {
      if invP == 0 {
        FlushReady();
        return;
      }
      NextArea();
    }

    /** The completion interrupt: `lvgl_pdma_isr` and `lvgl_pdma_done`. */
    method PdmaIsr()
      requires Valid() && job == NoJob
      modifies this`invP, this`job, this`ready, this`copied
      ensures Valid() && Chain(Pending(joined, old(invP)), old(ready))
      ensures copied == old(copied) + Head(Pending(joined, old(invP)))
    {
      if invP == 0 {
        FlushReady();
        return;
      }
      NextArea();
    }

    /** One line of the engine: n pixels from `from` to `to`. */
    method CopyLine(from: nat, to: nat, n: nat)
      requires Valid() && from + n <= draw.Length && to + n <= lcdc.Length
      modifies lcdc
      ensures forall i :: 0 <= i < lcdc.Length ==>
                lcdc[i] == if to <= i < to + n then draw[from + (i - to)] else old(lcdc[i])
    {
      for c := 0 to n
        invariant forall i :: 0 <= i < lcdc.Length ==>
                    lcdc[i] == if to <= i < to + c then draw[from + (i - to)] else old(lcdc[i])
      {
        lcdc[to + c] := draw[from + c];
      }
    }

    /** The engine carries out the job it was given and goes idle. */
    method PdmaRun(ghost a: Area)
      requires Valid() && OnScreen(a, w, h) && job == JobFor(a)
      modifies this`job, lcdc
      ensures Valid() && job == NoJob && lcdc[..] == Copied(old(lcdc[..]), draw[..], a, w)
    {
      var from, to := job.src, job.dst;
      var before := lcdc[..];
      for r := 0 to job.height
        invariant job == JobFor(a) && from == to == Flat(a.x1, a.y1 + r, w)
        invariant forall i :: 0 <= i < lcdc.Length ==>
                    lcdc[i] == if Covers(a, i, w) && Row(i, w) < a.y1 + r then draw[i] else before[i]
      {
        FlatBound(a.x2, a.y1 + r, w, h);
        forall i: nat
          ensures from <= i < from + job.width <==> Row(i, w) == a.y1 + r && a.x1 <= Col(i, w) <= a.x2
        {
          RunIsRowPart(a.x1, a.y1 + r, job.width, w, i);
        }
        CopyLine(from, to, job.width);
        assert Flat(a.x1, a.y1 + r + 1, w) == Flat(a.x1, a.y1 + r, w) + w;
        from, to := from + job.srcPitch, to + job.dstPitch;
      }
      job := NoJob;
    }

    /** The end of one copy and its interrupt. */
    method CopyAndInterrupt(ghost todo: seq<nat>, ghost wasReady: nat, ghost src: seq<Pixel>, ghost screen: seq<Pixel>,
                            ghost all: seq<nat>)
      requires Valid() && job != NoJob && Chain(todo, wasReady)
      requires LeadsTo(todo, lcdc[..], copied, src, areas, w, screen, all) && draw[..] == src
      modifies this`invP, this`job, this`ready, this`copied, lcdc
      ensures Valid() && Chain(todo[1..], wasReady)
      ensures LeadsTo(todo[1..], lcdc[..], copied, src, areas, w, screen, all) && draw[..] == src
    {
      LeadsOn(todo, lcdc[..], copied, src, areas, w, screen, all);
      PdmaRun(areas[todo[0]]);
      PdmaIsr();
    }

    /** The rest of the chain, copy by copy. */
    method FinishChain(ghost todo: seq<nat>, ghost wasReady: nat, ghost src: seq<Pixel>, ghost screen: seq<Pixel>,
                       ghost all: seq<nat>)
      requires Valid() && Chain(todo, wasReady)
      requires LeadsTo(todo, lcdc[..], copied, src, areas, w, screen, all) && draw[..] == src
      modifies this`invP, this`job, this`ready, this`copied, lcdc
      ensures Valid() && job == NoJob && ready == wasReady + 1
      ensures copied == all && lcdc[..] == screen && draw[..] == src
      decreases |todo|
    {
      if job != NoJob {
        CopyAndInterrupt(todo, wasReady, src, screen, all);
        FinishChain(todo[1..], wasReady, src, screen, all);
      }
    }

    /** All copies of a refresh, from the first one's start to flush-ready. */
    method PdmaChain(ghost todo: seq<nat>, ghost src: seq<Pixel>)
      requires Valid() && job == NoJob && todo == Pending(joined, invP) && Indexes(todo, |areas|) && src == draw[..]
      modifies this`invP, this`job, this`ready, this`copied, lcdc
      ensures Valid() && job == NoJob && ready == old(ready) + 1
      ensures copied == old(copied) + todo
      ensures lcdc[..] == After(old(lcdc[..]), src, areas, todo, w) && draw[..] == src
    {
      ghost var wasReady, screen := ready, After(lcdc[..], src, areas, todo, w);
      ghost var all := copied + todo;
      LeadsFirst(todo, lcdc[..], copied, src, areas, w);
      PdmaStart();
      FinishChain(todo, wasReady, src, screen, all);
    }

    /**
     * `lv_flush_display_direct` and the interrupts it sets off, LVGL keeping still until flush-ready. A
     * flush that is not the last only signals ready. The last one makes one copy per area that is not
     * joined, signals ready once, after the last copy, and leaves the screen equal to the drawn buffer on
     * the union of those areas and unchanged elsewhere.
     */
    method FlushDirect(isLast: bool, invAreas: seq<Area>, invJoined: seq<bool>)
      requires Valid() && job == NoJob && |invAreas| == |invJoined|
      requires forall k :: 0 <= k < |invAreas| ==> OnScreen(invAreas[k], w, h)
      modifies this`invP, this`areas, this`joined, this`job, this`ready, this`copied, lcdc
      ensures Valid() && job == NoJob && ready == old(ready) + 1
      ensures !isLast ==> lcdc[..] == old(lcdc[..]) && copied == old(copied)
      ensures isLast ==> copied == old(copied) + Pending(invJoined, |invJoined|)
      ensures isLast ==> forall i :: 0 <= i < lcdc.Length ==>
                lcdc[i] == if exists k :: Shows(invAreas, invJoined, k, i, w)
                           then draw[i] else old(lcdc[i])
    {
      if !isLast {
        FlushReady();
        return;
      }
      invP, areas, joined := |invAreas|, invAreas, invJoined;
      ghost var start, todo := lcdc[..], Pending(invJoined, |invJoined|);
      PendingExact(invJoined, |invJoined|);
      forall j | 0 <= j < |todo|
        ensures todo[j] < |areas|
      {
        assert todo[j] in todo;
      }
      PdmaChain(todo, draw[..]);
      AfterIsUnion(start, draw[..], areas, todo, w);
      forall i | 0 <= i < lcdc.Length
        ensures lcdc[i] == if exists k :: Shows(invAreas, invJoined, k, i, w)
                           then draw[i] else start[i]
      {
        PendingUnion(invAreas, invJoined, todo, i, w);
        assert lcdc[i] == lcdc[..][i];
      }
    }

    /** LVGL draws. */
    method Draw(picture: seq<Pixel>)
      requires Valid() && |picture| == draw.Length
      modifies draw
      ensures draw[..] == picture
    {
      forall i | 0 <= i < draw.Length {
        draw[i] := picture[i];
      }
    }

    /** One refresh: LVGL draws and flushes area by area, and the last flush copies. */
    method RefreshOnce(r: Refresh)
      requires Valid() && job == NoJob && Fits(r, w, h)
      modifies this`invP, this`areas, this`joined, this`job, this`ready, this`copied, draw, lcdc
      ensures Valid() && job == NoJob && ready == old(ready) + |r.early| + 1
      ensures draw[..] == r.picture && lcdc[..] == Shown(old(lcdc[..]), r, w)
    {
      for k := 0 to |r.early|
        invariant Valid() && job == NoJob && ready == old(ready) + k && lcdc[..] == old(lcdc[..])
      {
        Draw(r.early[k]);
        FlushDirect(false, [], []);
      }
      Draw(r.picture);
      FlushDirect(true, r.areas, r.joined);
    }

    /** Any run of refreshes. Ready is signalled once for each flush callback. */
    method RefreshAll(rs: seq<Refresh>)
      requires Valid() && job == NoJob && draw[..] == lcdc[..] && AllFit(rs, w, h)
      modifies this`invP, this`areas, this`joined, this`job, this`ready, this`copied, draw, lcdc
      ensures Valid() && job == NoJob && ready == old(ready) + Flushes(rs, |rs|)
      ensures draw[..] == Drawn(old(lcdc[..]), rs, |rs|, w, h)
      ensures lcdc[..] == ShownAfter(old(lcdc[..]), rs, |rs|, w, h)
      ensures (forall k :: 0 <= k < |rs| ==> ConfinedAt(old(lcdc[..]), rs, k, w, h)) ==> lcdc[..] == draw[..]
    {
      ghost var start := lcdc[..];
      for k := 0 to |rs|
        invariant Valid() && job == NoJob && ready == old(ready) + Flushes(rs, k)
        invariant draw[..] == Drawn(start, rs, k, w, h) && lcdc[..] == ShownAfter(start, rs, k, w, h)
      {
        RefreshOnce(rs[k]);
      }
      WholePictureIff(start, rs, |rs|, w, h);
      assert |rs| == 0 || Whole(start, rs, |rs| - 1, w, h) <==> lcdc[..] == draw[..];
    }
  }
}
