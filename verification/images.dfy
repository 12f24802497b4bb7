/** The image optimisation script: every image whose source is not already
    WebP, AVIF or a data URI has its `.jpg`/`.jpeg`/`.png` ending swapped for
    the best format the browser supports, keeps its original source for a
    load-error fallback, and every image but the profile picture is marked
    for lazy loading. The two format probes are inputs. */
module Images {
  import opened Common

  /** An `<img>` element: its `src` attribute (None when absent), its
      `data-original`, whether its `onerror` reverts to that, its `loading`
      attribute and whether it has the `profile-image` class. */
  datatype Image = Image(src: Option<string>, original: Option<string>, revertsOnError: bool,
                         loading: Option<string>, profileImage: bool)

  /** ASCII case folding, which is what the `i` flag does for these letters. */
  function Lower(c: char): char {
    if 'A' <= c <= 'Z' then (c as int + 32) as char else c
  }

  /** `s` ends with `suffix` (given in lower case), ignoring case. */
  predicate EndsWithFolded(s: string, suffix: string) {
    |suffix| <= |s| &&
    forall k :: 0 <= k < |suffix| ==> Lower(s[|s| - |suffix| + k]) == suffix[k]
  }

  /** The length of the ending `/\.(jpe?g|png)$/i` matches, 0 if none. The
      pattern is anchored at the end, so at most one ending can match. */
  function MatchedExtension(s: string): (n: nat)
    ensures n == 0 || n == 4 || n == 5
    ensures n <= |s|
  {
    if EndsWithFolded(s, ".jpeg") then 5
    else if EndsWithFolded(s, ".jpg") || EndsWithFolded(s, ".png") then 4
    else 0
  }

  /** `s.replace(/\.(jpe?g|png)$/i, ext)` */
  function ReplaceExtension(s: string, ext: string): (r: string)
    ensures MatchedExtension(s) == 0 ==> r == s
    ensures MatchedExtension(s) > 0 ==>
      r == s[..|s| - MatchedExtension(s)] + ext && EndsWith(r, ext)
  {
    var n := MatchedExtension(s);
    if n == 0 then s
    else
      var r := s[..|s| - n] + ext;
      assert r[|r| - |ext|..] == ext;
      r
  }

  /** The skip test: already WebP or AVIF anywhere in the address, or a data
      URI. */
  predicate Skipped(src: string) {
    Contains(src, ".webp") || Contains(src, ".avif") || StartsWith(src, "data:")
  }

  /** The source an image gets: AVIF when supported, else WebP when
      supported, else unchanged. */
  function OptimisedSource(src: string, webp: bool, avif: bool): string {
    if avif then ReplaceExtension(src, ".avif")
    else if webp then ReplaceExtension(src, ".webp")
    else src
  }

  /** One iteration of `updateImageSources` on an image that has a source. */
  function Optimise(img: Image, webp: bool, avif: bool): (r: Image)
    requires img.src.Some?
  {
    var src := img.src.value;
    if Skipped(src) then img
    else img.(original := Some(src), src := Some(OptimisedSource(src, webp, avif)),
              revertsOnError := true)
  }

  /** The rewrite rule in full: skipped images are untouched; every other
      image keeps its original source in `data-original`; AVIF wins over
      WebP; only a matching ending changes, and it becomes the new format's
      extension with the rest of the address kept. */
  lemma OptimiseSpec(img: Image, webp: bool, avif: bool)
    requires img.src.Some?
    ensures Skipped(img.src.value) ==> Optimise(img, webp, avif) == img
    ensures !Skipped(img.src.value) ==> Optimise(img, webp, avif).original == img.src
    ensures var src, n := img.src.value, MatchedExtension(img.src.value);
      !Skipped(src) && n > 0 && (avif || webp) ==>
        Optimise(img, webp, avif).src ==
          Some(src[..|src| - n] + (if avif then ".avif" else ".webp"))
    ensures !Skipped(img.src.value) && (MatchedExtension(img.src.value) == 0 || (!avif && !webp)) ==>
      Optimise(img, webp, avif).src == img.src
    ensures Optimise(img, webp, avif).loading == img.loading
  {
  }

  /** The `onerror` handler: revert to `data-original` when it is truthy. */
  function OnLoadError(img: Image): Image {
    if img.revertsOnError && Truthy(img.original)
    then img.(src := img.original)
    else img
  }

  /** A rewritten image that fails to load shows its original source again. */
  lemma FallbackRestoresOriginal(img: Image, webp: bool, avif: bool)
    requires img.src.Some? && !Skipped(img.src.value)
    ensures OnLoadError(Optimise(img, webp, avif)).src == img.src
  {
  }

  /** A rewritten address ends with the new extension, so it contains it. */
  lemma EndsWithIncludes(r: string, ext: string)
    requires EndsWith(r, ext)
    ensures Contains(r, ext)
  {
    assert OccursAt(r, ext, |r| - |ext|);
  }

  /** Running the rewrite again changes nothing: a rewritten source is now
      skipped, and an unmatched one is rewritten to itself. */
  lemma {:induction false} OptimiseIdempotent(img: Image, webp: bool, avif: bool)
    requires img.src.Some?
    ensures Optimise(Optimise(img, webp, avif), webp, avif) == Optimise(img, webp, avif)
  {
    var src := img.src.value;
    if !Skipped(src) && MatchedExtension(src) > 0 && (avif || webp) {
      var r := OptimisedSource(src, webp, avif);
      EndsWithIncludes(r, if avif then ".avif" else ".webp");
      assert Skipped(r);
    }
  }

  /** The number of leading images that have a `src` attribute: the forEach
      stops at the first image without one, where `src.includes` throws. */
  function WithSource(imgs: seq<Image>): (n: nat)
    ensures n <= |imgs|
    ensures forall k :: 0 <= k < n ==> imgs[k].src.Some?
    ensures n < |imgs| ==> imgs[n].src.None?
  {
    if imgs == [] || imgs[0].src.None? then 0 else 1 + WithSource(imgs[1..])
  }

  /** `updateImageSources`, in place over the document's images. */
  method UpdateImageSources(imgs: array<Image>, webp: bool, avif: bool)
    modifies imgs
    ensures var n := WithSource(old(imgs[..]));
      (forall k :: 0 <= k < n ==> old(imgs[k]).src.Some? && imgs[k] == Optimise(old(imgs[k]), webp, avif)) &&
      (forall k :: n <= k < imgs.Length ==> imgs[k] == old(imgs[k]))
  {
    ghost var n := WithSource(imgs[..]);
    var i := 0;
    while i < imgs.Length
      invariant 0 <= i <= n
      invariant forall k :: 0 <= k < i ==> imgs[k] == Optimise(old(imgs[k]), webp, avif)
      invariant forall k :: i <= k < imgs.Length ==> imgs[k] == old(imgs[k])
    {
      var img := imgs[i];
      if img.src.None? {
        return;  // `src.includes` on null throws a TypeError: the loop ends
      }
      var src := img.src.value;
      if Contains(src, ".webp") || Contains(src, ".avif") || StartsWith(src, "data:") {
        i := i + 1;
        continue;
      }
      var optimised := src;
      if avif {
        optimised := ReplaceExtension(src, ".avif");
      } else if webp {
        optimised := ReplaceExtension(src, ".webp");
      }
      imgs[i] := img.(original := Some(src), src := Some(optimised), revertsOnError := true);
      i := i + 1;
    }
  }

  /** `addLazyLoading` for one image. */
  function Lazy(img: Image): (r: Image)
    ensures r.(loading := img.loading) == img
    ensures img.loading.Some? ==> r.loading == img.loading
    ensures !img.profileImage && img.loading.None? ==> r.loading == Some("lazy")
    ensures img.profileImage ==> r == img
  {
    if !img.profileImage && img.loading.None? then img.(loading := Some("lazy")) else img
  }

  /** Tagging twice is the same as tagging once. */
  lemma LazyIdempotent(img: Image)
    ensures Lazy(Lazy(img)) == Lazy(img)
  {
  }

  /** `addLazyLoading`, in place over the document's images. */
  method AddLazyLoading(imgs: array<Image>)
    modifies imgs
    ensures forall k :: 0 <= k < imgs.Length ==> imgs[k] == Lazy(old(imgs[k]))
  {
    var i := 0;
    while i < imgs.Length
      invariant 0 <= i <= imgs.Length
      invariant forall k :: 0 <= k < i ==> imgs[k] == Lazy(old(imgs[k]))
      invariant forall k :: i <= k < imgs.Length ==> imgs[k] == old(imgs[k])
    {
      if !imgs[i].profileImage && imgs[i].loading.None? {
        imgs[i] := imgs[i].(loading := Some("lazy"));
      }
      i := i + 1;
    }
  }
}
