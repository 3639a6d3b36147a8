/**
 * The lazy-image loader of js/responsive.js: every image starts transparent
 * and observed; the first time it intersects the viewport its deferred
 * source (data-src) is moved into src, it fades in and it stops being
 * observed.
 */
module LazyImages {
  import opened Wrappers

  /** The parts of an img element the loader reads and writes; opacity is 0 or 1. */
  datatype Image = Image(src: string, dataSrc: Option<string>, opacity: nat, observed: bool)

  /** One intersection entry: the index of its target image and whether it intersects. */
  datatype Entry = Entry(target: nat, isIntersecting: bool)

  /**
   * Whether the handler takes a deferred source: data-src is present and
   * non-empty, as JavaScript's truthiness test on the attribute's value has it.
   */
  predicate HasDeferred(img: Image) {
    img.dataSrc.Some? && img.dataSrc.value != ""
  }

  /** The source an image shows once loaded: its deferred source if it has a usable one. */
  function LoadedSource(img: Image): string {
    if HasDeferred(img) then img.dataSrc.value else img.src
  }

  /** An image that has been through the handler: no deferred source left, visible, no longer observed. */
  predicate Loaded(img: Image) {
    !HasDeferred(img) && img.opacity == 1 && !img.observed
  }

  /** The handler's work on an image whose entry intersects. */
  function Reveal(img: Image): (r: Image)
    ensures Loaded(r)
    ensures r.src == LoadedSource(img)
    ensures r.dataSrc == if HasDeferred(img) then None else img.dataSrc
  {
    var withSource := if HasDeferred(img) then img.(src := img.dataSrc.value, dataSrc := None) else img;
    withSource.(opacity := 1, observed := false)
  }

  /** Loading happens once: revealing a loaded image changes nothing. */
  lemma RevealOnce(img: Image)
    ensures Loaded(img) ==> Reveal(img) == img
    ensures Reveal(Reveal(img)) == Reveal(img)
  {
  }

  /** An empty data-src is falsy: the image keeps its src and the attribute, and is only faded in. */
  lemma EmptyDeferredSourceKept(src: string, opacity: nat, observed: bool)
    ensures Reveal(Image(src, Some(""), opacity, observed)) == Image(src, Some(""), 1, false)
  {
  }

  /** One entry of a callback batch. */
  function OnEntry(images: seq<Image>, e: Entry): (r: seq<Image>)
    requires e.target < |images|
    ensures |r| == |images|
    ensures forall k :: 0 <= k < |images| && k != e.target ==> r[k] == images[k]
    ensures e.isIntersecting ==> Loaded(r[e.target])
    ensures !e.isIntersecting ==> r[e.target] == images[e.target]
  {
    if e.isIntersecting then images[e.target := Reveal(images[e.target])] else images
  }

  predicate Targets(images: seq<Image>, entries: seq<Entry>) {
    forall j :: 0 <= j < |entries| ==> entries[j].target < |images|
  }

  /** The images after the callback has handled a batch of entries in order. */
  function Deliver(images: seq<Image>, entries: seq<Entry>): (r: seq<Image>)
    requires Targets(images, entries)
    ensures |r| == |images|
    ensures forall k :: 0 <= k < |images| && Loaded(images[k]) ==> Loaded(r[k])
    decreases |entries|
  {
    if entries == [] then images
    else
      var last := entries[|entries| - 1];
      OnEntry(Deliver(images, entries[..|entries| - 1]), last)
  }

  /** Whether some entry of the batch reports image k as intersecting. */
  predicate Hit(entries: seq<Entry>, k: nat) {
    exists j :: 0 <= j < |entries| && entries[j] == Entry(k, true)
  }

  /**
   * After a batch, an image some entry reported as intersecting is loaded and
   * shows its deferred source (or keeps its own if it had none); every other
   * image is exactly as it was.
   */
  lemma {:induction false} DeliverEffect(images: seq<Image>, entries: seq<Entry>, k: nat)
    requires Targets(images, entries) && k < |images|
    ensures Deliver(images, entries)[k] == if Hit(entries, k) then Reveal(images[k]) else images[k]
    decreases |entries|
  {
    if entries != [] {
      var n := |entries| - 1;
      var prefix := entries[..n];
      assert Targets(images, prefix);
      DeliverEffect(images, prefix, k);
      assert Hit(entries, k) <==> Hit(prefix, k) || entries[n] == Entry(k, true) by {
        if Hit(entries, k) {
          var j :| 0 <= j < |entries| && entries[j] == Entry(k, true);
          if j < n { assert prefix[j] == entries[j]; }
        }
        if Hit(prefix, k) {
          var j :| 0 <= j < |prefix| && prefix[j] == Entry(k, true);
          assert entries[j] == prefix[j];
        }
      }
      RevealOnce(images[k]);
    }
  }

  /** A loaded image is never processed again, whatever later batches report. */
  lemma LoadedStaysLoaded(images: seq<Image>, entries: seq<Entry>, k: nat)
    requires Targets(images, entries) && k < |images| && Loaded(images[k])
    ensures Deliver(images, entries)[k] == images[k]
  {
    DeliverEffect(images, entries, k);
    RevealOnce(images[k]);
  }

  /** The img elements of the page and the observer's callback over them. */
  class LazyLoader {
    const images: array<Image>

    constructor (initial: seq<Image>)
      ensures fresh(images) && images[..] == initial
    {
      images := new Image[|initial|](i requires 0 <= i < |initial| => initial[i]);
    }

    /**
     * The setup loop: each image is made transparent and observed, and
     * visible at once if it has already finished loading.
     */
    method ObserveAll(complete: seq<bool>)
      requires |complete| == images.Length
      modifies images
      ensures forall i :: 0 <= i < images.Length ==>
        images[i] == old(images[i]).(opacity := if complete[i] then 1 else 0, observed := true)
    {
      var i := 0;
      while i < images.Length
        invariant 0 <= i <= images.Length
        invariant forall j :: 0 <= j < i ==>
          images[j] == old(images[j]).(opacity := if complete[j] then 1 else 0, observed := true)
        invariant forall j :: i <= j < images.Length ==> images[j] == old(images[j])
      {
        images[i] := images[i].(opacity := 0, observed := true);
        if complete[i] {
          images[i] := images[i].(opacity := 1);
        }
        i := i + 1;
      }
    }

    /** The intersection callback on one batch of entries. */
    method OnEntries(entries: seq<Entry>)
      requires Targets(images[..], entries)
      modifies images
      ensures images[..] == Deliver(old(images[..]), entries)
    {
      var i := 0;
      while i < |entries|
        invariant 0 <= i <= |entries|
        invariant Targets(old(images[..]), entries[..i])
        invariant images[..] == Deliver(old(images[..]), entries[..i])
      {
        var e := entries[i];
        if e.isIntersecting {
          var img := images[e.target];
          if img.dataSrc.Some? && img.dataSrc.value != "" {
            img := img.(src := img.dataSrc.value, dataSrc := None);
          }
          images[e.target] := img.(opacity := 1, observed := false);
        }
        assert entries[..i + 1][..i] == entries[..i];
        i := i + 1;
      }
      assert entries[..i] == entries;
    }
  }
}
