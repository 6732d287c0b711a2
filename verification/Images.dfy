/** Local image hosting, its memo, and garbage collection (app/services/images.py). */
module Images {
  import opened Wrappers
  import opened Text
  import opened Schema
  import opened Identity
  import Archive
  import Lifecycle
  import PostQueue

  type Bytes = seq<bv8>

  datatype Response = Response(content: Bytes, contentType: Option<string>)

  /** The outside world.  `fetch` is a stable download: the same answer for the same address, None
      when it fails.  `sha` is SHA-256 in hexadecimal, `lower` is `str.lower`, and `suffix` is the
      lower-cased file suffix of an address. */
  datatype Web = Web(
    fetch: string -> Option<Response>, sha: Bytes -> string, lower: string -> string, suffix: string -> string)

  const PREFIX := "/images/"
  const INDEX_MAX: nat := 1000

  // ---- names -----------------------------------------------------------

  predicate LowerAlnum(c: char) { '0' <= c <= '9' || 'a' <= c <= 'z' }

  ghost predicate HexDigests(web: Web) {
    forall b :: HexDigest(web.sha(b))
  }

  /** The regular expression `\.[a-z0-9]+`. */
  predicate IsExtension(s: string) {
    |s| >= 2 && s[0] == '.' && forall c :: c in s[1..] ==> LowerAlnum(c)
  }

  /** The file names this service writes: `[0-9a-f]{64}\.[a-z0-9]+`. */
  predicate WellNamed(name: string) {
    |name| > 64 && HexDigest(name[..64]) && IsExtension(name[64..])
  }

  function TypeExtension(mime: string): Option<string> {
    if mime == "image/jpeg" || mime == "image/jpg" then Some(".jpg")
    else if mime == "image/png" then Some(".png")
    else if mime == "image/webp" then Some(".webp")
    else if mime == "image/gif" then Some(".gif")
    else if mime == "image/heic" then Some(".heic")
    else if mime == "image/heif" then Some(".heif")
    else if mime == "image/avif" then Some(".avif")
    else None
  }

  function Extension(web: Web, contentType: Option<string>, url: string): string {
    var typed :=
      if Truthy(contentType) then TypeExtension(web.lower(Strip(Split(';', contentType.value)[0]))) else None;
    if typed.Some? then typed.value
    else if IsExtension(web.suffix(url)) && 3 <= |web.suffix(url)| <= 6 then web.suffix(url)
    else ".img"
  }

  /** The content-addressed name a download is stored under. */
  function NameOf(web: Web, r: Response, url: string): string {
    web.sha(r.content) + Extension(web, r.contentType, url)
  }

  function StoredName(web: Web, url: string): Option<string> {
    match web.fetch(url)
    case None => None
    case Some(r) => Some(NameOf(web, r, url))
  }

  lemma ExtensionShape(web: Web, contentType: Option<string>, url: string)
    ensures IsExtension(Extension(web, contentType, url))
  {
    forall s: string | s in {".jpg", ".png", ".webp", ".gif", ".heic", ".heif", ".avif", ".img"}
      ensures IsExtension(s)
    {
    }
  }

  /** The media types with an extension of their own. */
  const KNOWN_TYPES := map[
    "image/jpeg" := ".jpg", "image/jpg" := ".jpg", "image/png" := ".png", "image/webp" := ".webp",
    "image/gif" := ".gif", "image/heic" := ".heic", "image/heif" := ".heif", "image/avif" := ".avif"]

  lemma TypeExtensionExactly(mime: string)
    ensures TypeExtension(mime) == if mime in KNOWN_TYPES then Some(KNOWN_TYPES[mime]) else None
  {
  }

  /** A stored name ends in the extension of the media type the server names, parameters aside; failing
      that in the address's own suffix, if it is a dot and two to five lower-case letters or digits;
      failing that in ".img". */
  lemma ExtensionExactly(web: Web, contentType: Option<string>, url: string)
    ensures var mime := web.lower(Strip(Split(';', contentType.GetOr(""))[0]));
      var named, own := contentType.Some? && contentType.value != "" && mime in KNOWN_TYPES, web.suffix(url);
      var usable := 3 <= |own| <= 6 && own[0] == '.' && forall c | c in own[1..] :: LowerAlnum(c);
      Extension(web, contentType, url) == if named then KNOWN_TYPES[mime] else if usable then own else ".img"
  {
    hide Strip, Split;
    TypeExtensionExactly(web.lower(Strip(Split(';', contentType.GetOr(""))[0])));
  }

  /** Whatever the server says, the stored name is one the garbage collector recognises. */
  lemma StoredNamesAreWellNamed(web: Web, r: Response, url: string)
    requires HexDigests(web)
    ensures WellNamed(NameOf(web, r, url)) && NameOf(web, r, url)[..64] == web.sha(r.content)
  {
    var name := NameOf(web, r, url);
    ExtensionShape(web, r.contentType, url);
    assert name[..64] == web.sha(r.content) && name[64..] == Extension(web, r.contentType, url);
  }

  function FilenameOf(url: string): Option<string> {
    if PREFIX <= url then Some(url[|PREFIX|..]) else None
  }

  // ---- hosting without a memo --------------------------------------------

  /** The specification: download every time. */
  function HostedRef(web: Web, img: ImageRef): ImageRef {
    if PREFIX <= img.url then img
    else match StoredName(web, img.url)
      case None => img
      case Some(name) => img.(sourceUrl := Some(img.url), url := PREFIX + name)
  }

  function HostGallery(web: Web, images: seq<ImageRef>): seq<ImageRef> {
    seq(|images|, i requires 0 <= i < |images| => HostedRef(web, images[i]))
  }

  /** Hosting keeps order, number and captions.  An image that is here already, or cannot be downloaded, is
      left as it is; any other points at its file and names the address it came from. */
  lemma HostedExactly(web: Web, images: seq<ImageRef>, i: nat)
    requires i < |images|
    ensures |HostGallery(web, images)| == |images|
    ensures var img, img', answer := images[i], HostGallery(web, images)[i], web.fetch(images[i].url);
      && img'.alt == img.alt
      && (if "/images/" <= img.url || answer.None? then img' == img
          else && img'.sourceUrl == Some(img.url)
               && img'.url == "/images/" + web.sha(answer.value.content)
                              + Extension(web, answer.value.contentType, img.url))
  {
    if !("/images/" <= images[i].url) && web.fetch(images[i].url).Some? {
      var r := web.fetch(images[i].url).value;
      assert "/images/" + (web.sha(r.content) + Extension(web, r.contentType, images[i].url))
          == "/images/" + web.sha(r.content) + Extension(web, r.contentType, images[i].url);
    }
  }

  /** The disk after one download: an existing file is left alone. */
  function DiskWith(disk: map<string, Bytes>, name: string, content: Bytes): map<string, Bytes> {
    if name in disk then disk else disk[name := content]
  }

  function DiskAfter(web: Web, disk: map<string, Bytes>, images: seq<ImageRef>): map<string, Bytes> {
    if images == [] then disk else DiskHosting(web, DiskAfter(web, disk, Front(images)), Last(images))
  }

  function DiskHosting(web: Web, disk: map<string, Bytes>, img: ImageRef): map<string, Bytes> {
    if PREFIX <= img.url || web.fetch(img.url).None? then disk
    else DiskWith(disk, NameOf(web, web.fetch(img.url).value, img.url), web.fetch(img.url).value.content)
  }

  datatype Memo = Memo(filename: string, lastUsed: Time)

  /** Every memo row says what downloading its address again would say. */
  ghost predicate MemoSound(web: Web, memo: map<string, Memo>) {
    forall url :: url in memo ==> StoredName(web, url) == Some(memo[url].filename)
  }

  /** The memo after hosting a batch, before any eviction: each address that was hosted, with the
      time it was last used. */
  function MemoAfter(web: Web, memo: map<string, Memo>, images: seq<ImageRef>, clock: nat -> Time): map<string, Memo> {
    if images == [] then memo
    else MemoHosting(web, MemoAfter(web, memo, Front(images), clock), Last(images), clock(|images| - 1))
  }

  function MemoHosting(web: Web, memo: map<string, Memo>, img: ImageRef, now: Time): map<string, Memo> {
    if PREFIX <= img.url || StoredName(web, img.url).None? then memo
    else memo[img.url := Memo(StoredName(web, img.url).value, now)]
  }

  /** `k` is the last image of the batch at this address. */
  predicate LastAt(images: seq<ImageRef>, url: string, k: nat) {
    k < |images| && images[k].url == url && forall j | k < j < |images| :: images[j].url != url
  }

  /** What the memo knows of an address after a batch: if the batch had it and it could be downloaded, its file
      and when the batch last used it; otherwise what it knew before. */
  lemma {:induction false} RememberedExactly(
    web: Web, memo: map<string, Memo>, images: seq<ImageRef>, clock: nat -> Time, url: string)
    ensures var memo' := MemoAfter(web, memo, images, clock);
      && (forall k: nat | LastAt(images, url, k) && !("/images/" <= url) && StoredName(web, url).Some? ::
            url in memo' && memo'[url] == Memo(StoredName(web, url).value, clock(k)))
      && ((forall img | img in images :: img.url != url) || "/images/" <= url || StoredName(web, url).None? ==>
            (url in memo' <==> url in memo) && (url in memo ==> memo'[url] == memo[url]))
  {
    hide StoredName;
    if images != [] {
      assert images == Front(images) + [Last(images)];
      RememberedExactly(web, memo, Front(images), clock, url);
      forall k: nat | LastAt(images, url, k) && k < |images| - 1 ensures LastAt(Front(images), url, k) {
        assert Last(images) == images[|images| - 1];
      }
    }
  }

  /** Every well-named file holds bytes with the digest its name carries. */
  ghost predicate DiskSound(web: Web, disk: map<string, Bytes>) {
    forall name :: name in disk && WellNamed(name) ==> web.sha(disk[name]) == name[..64]
  }

  /** The rows dropped from a memo were each used no later than every row kept. */
  ghost predicate EvictsOldest(before: map<string, Memo>, after: map<string, Memo>) {
    && after.Keys <= before.Keys && (forall url :: url in after ==> after[url] == before[url])
    && forall gone, kept | gone in before && gone !in after && kept in after ::
         before[gone].lastUsed <= before[kept].lastUsed
  }

  lemma PrefixedName(name: string)
    ensures FilenameOf(PREFIX + name) == Some(name)
  {
    assert (PREFIX + name)[|PREFIX|..] == name;
  }

  /** The state of the hosting loop after `n` images: exactly what downloading each would leave. */
  ghost predicate HostedUpTo(
    web: Web, was: seq<ImageRef>, refs: seq<ImageRef>, n: nat, disk0: map<string, Bytes>, disk: map<string, Bytes>)
  {
    && |refs| == |was| && n <= |was|
    && disk == DiskAfter(web, disk0, was[..n])
    && refs == HostGallery(web, was[..n]) + was[n..]
  }

  lemma OneMoreHosted(
    web: Web, was: seq<ImageRef>, refs: seq<ImageRef>, n: nat, disk0: map<string, Bytes>, disk: map<string, Bytes>)
    requires n < |was| && HostedUpTo(web, was, refs, n, disk0, disk)
    ensures refs[n] == was[n]
    ensures HostedUpTo(
      web, was, refs[n := HostedRef(web, was[n])], n + 1, disk0, DiskHosting(web, disk, was[n]))
  {
    hide HostedRef, DiskHosting;
    assert Front(was[..n + 1]) == was[..n] && Last(was[..n + 1]) == was[n];
    assert |HostGallery(web, was[..n])| == n && was[n..][0] == was[n];
    assert HostGallery(web, was[..n + 1]) == HostGallery(web, was[..n]) + [HostedRef(web, was[n])];
  }

  lemma OneMoreRemembered(web: Web, memo: map<string, Memo>, was: seq<ImageRef>, n: nat, clock: nat -> Time)
    requires n < |was|
    ensures MemoAfter(web, memo, was[..n + 1], clock)
         == MemoHosting(web, MemoAfter(web, memo, was[..n], clock), was[n], clock(n))
  {
    assert Front(was[..n + 1]) == was[..n] && Last(was[..n + 1]) == was[n];
  }

  /** Afterwards every rewritten image's file is on disk, and no file that was there has changed. */
  lemma {:induction false} HostedFilesAreOnDisk(web: Web, disk: map<string, Bytes>, images: seq<ImageRef>)
    ensures var disk' := DiskAfter(web, disk, images);
      && disk.Keys <= disk'.Keys && (forall name | name in disk :: disk'[name] == disk[name])
      && (forall img | img in images && HostedRef(web, img) != img ::
            FilenameOf(HostedRef(web, img).url).Some? && FilenameOf(HostedRef(web, img).url).value in disk')
  {
    if images != [] {
      assert images == Front(images) + [Last(images)];
      HostedFilesAreOnDisk(web, disk, Front(images));
      var img := Last(images);
      if HostedRef(web, img) != img { PrefixedName(StoredName(web, img.url).value); }
    }
  }

  lemma DiskHostingSound(web: Web, disk: map<string, Bytes>, img: ImageRef)
    requires HexDigests(web) && DiskSound(web, disk)
    ensures DiskSound(web, DiskHosting(web, disk, img))
  {
    if !(PREFIX <= img.url) && web.fetch(img.url).Some? {
      StoredNamesAreWellNamed(web, web.fetch(img.url).value, img.url);
    }
  }

  /** The file behind a rewritten image holds what its source served, up to SHA-256. */
  ghost predicate HoldsDownload(web: Web, disk: map<string, Bytes>, img: ImageRef) {
    HostedRef(web, img) != img ==>
      && web.fetch(img.url).Some?
      && var name := NameOf(web, web.fetch(img.url).value, img.url);
      && HostedRef(web, img).url == PREFIX + name && name in disk
      && web.sha(disk[name]) == web.sha(web.fetch(img.url).value.content)
  }

  lemma FileHoldsDownload(web: Web, disk: map<string, Bytes>, img: ImageRef)
    requires HexDigests(web) && DiskSound(web, disk)
    ensures HoldsDownload(web, DiskHosting(web, disk, img), img)
  {
    if !(PREFIX <= img.url) && web.fetch(img.url).Some? {
      StoredNamesAreWellNamed(web, web.fetch(img.url).value, img.url);
    }
  }

  /** Hosting keeps the disk sound, and every rewritten image's file holds the bytes its source
      served, whether it was downloaded now or was there before. */
  lemma {:induction false} HostedFilesHoldTheDownload(web: Web, disk: map<string, Bytes>, images: seq<ImageRef>)
    requires HexDigests(web) && DiskSound(web, disk)
    ensures DiskSound(web, DiskAfter(web, disk, images))
    ensures forall img | img in images :: HoldsDownload(web, DiskAfter(web, disk, images), img)
  {
    if images != [] {
      assert images == Front(images) + [Last(images)];
      HostedFilesHoldTheDownload(web, disk, Front(images));
      DiskHostingSound(web, DiskAfter(web, disk, Front(images)), Last(images));
      FileHoldsDownload(web, DiskAfter(web, disk, Front(images)), Last(images));
    }
  }

  function Capped(n: nat): nat {
    if n <= INDEX_MAX then n else INDEX_MAX
  }

  // ---- the service -----------------------------------------------------

  class ImageService {
    const web: Web
    var disk: map<string, Bytes>
    var memo: map<string, Memo>

    ghost predicate Valid()
      reads this
    {
      HexDigests(web) && MemoSound(web, memo) && DiskSound(web, disk) && |memo| <= INDEX_MAX
    }

    constructor (web: Web)
      requires HexDigests(web)
      ensures Valid() && this.web == web && disk == map[] && memo == map[]
    {
      this.web := web;
      disk, memo := map[], map[];
    }

    /** Download and store under the content's name; an existing file is left alone. */
    method Store(url: string) returns (local: Option<string>)
      requires HexDigests(web) && DiskSound(web, disk)
      modifies this`disk
      ensures DiskSound(web, disk)
      ensures web.fetch(url).None? ==> local == None && disk == old(disk)
      ensures web.fetch(url).Some? ==>
        && var name := NameOf(web, web.fetch(url).value, url);
           local == Some(PREFIX + name) && disk == DiskWith(old(disk), name, web.fetch(url).value.content)
    {
      match web.fetch(url) {
        case None =>
          return None;
        case Some(r) =>
          var name := NameOf(web, r, url);
          StoredNamesAreWellNamed(web, r, url);
          if name !in disk {
            disk := disk[name := r.content];
          }
          return Some(PREFIX + name);
      }
    }

    /** Reuse the memo when its file is still there, else download: either way the outcome is that
        of downloading. */
    method HostOrStore(url: string, now: Time) returns (local: Option<string>, grew: bool)
      requires HexDigests(web) && DiskSound(web, disk) && MemoSound(web, memo)
      modifies this
      ensures DiskSound(web, disk) && MemoSound(web, memo)
      ensures StoredName(web, url).None? ==> local == None && memo == old(memo) && disk == old(disk)
      ensures StoredName(web, url).Some? ==>
        && local == Some(PREFIX + StoredName(web, url).value)
        && disk == DiskWith(old(disk), StoredName(web, url).value, web.fetch(url).value.content)
        && memo == old(memo)[url := Memo(StoredName(web, url).value, now)]
      ensures !grew ==> |memo| <= |old(memo)|
    {
      grew := false;
      if url in memo && memo[url].filename in disk {
        memo := memo[url := memo[url].(lastUsed := now)];
        return Some(PREFIX + memo[url].filename), false;
      }
      local := Store(url);
      if local.None? {
        return None, false;
      }
      var filename := local.value[|PREFIX|..];
      assert filename == StoredName(web, url).value;
      grew := url !in memo;
      memo := memo[url := Memo(filename, now)];
      assert !grew ==> memo.Keys == old(memo).Keys;
    }

    /** The least recently used row. */
    method Oldest() returns (url: string)
      requires memo != map[]
      ensures url in memo && forall u :: u in memo ==> memo[url].lastUsed <= memo[u].lastUsed
    {
      var todo := memo.Keys;
      url :| url in todo;
      todo := todo - {url};
      while todo != {}
        invariant todo <= memo.Keys && url in memo
        invariant forall u :: u in memo && u !in todo ==> memo[url].lastUsed <= memo[u].lastUsed
        decreases todo
      {
        var u :| u in todo;
        todo := todo - {u};
        if memo[u].lastUsed < memo[url].lastUsed {
          url := u;
        }
      }
    }

    /** Drop the least recently used rows beyond the cap. */
    method EvictLru()
      modifies this`memo
      ensures EvictsOldest(old(memo), memo)
      ensures |memo| == Capped(|old(memo)|)
    {
      while |memo| > INDEX_MAX
        invariant EvictsOldest(old(memo), memo)
        invariant |memo| == |old(memo)| || |memo| >= INDEX_MAX
        decreases |memo|
      {
        var url := Oldest();
        ghost var before := memo;
        memo := memo - {url};
        assert memo.Keys == before.Keys - {url};
      }
    }

    /** One round of the hosting loop. */
    method HostImage(img: ImageRef, now: Time) returns (img': ImageRef, grew: bool)
      requires HexDigests(web) && DiskSound(web, disk) && MemoSound(web, memo)
      modifies this
      ensures DiskSound(web, disk) && MemoSound(web, memo)
      ensures img' == HostedRef(web, img) && disk == DiskHosting(web, old(disk), img)
      ensures memo == MemoHosting(web, old(memo), img, now)
      ensures !grew ==> |memo| <= |old(memo)|
    {
      if PREFIX <= img.url {
        return img, false;
      }
      var original := img.url;
      var local, isNew := HostOrStore(original, now);
      if local.None? {
        return img, isNew;
      }
      return img.(sourceUrl := Some(original), url := local.value), isNew;
    }

    /** The hosting loop over all images of a batch, laid end to end; `clock(k)` is the time when
        image k is handled. */
    method HostAll(refs: array<ImageRef>, clock: nat -> Time) returns (grew: bool)
      requires HexDigests(web) && DiskSound(web, disk) && MemoSound(web, memo)
      modifies this, refs
      ensures DiskSound(web, disk) && MemoSound(web, memo)
      ensures HostedUpTo(web, old(refs[..]), refs[..], refs.Length, old(disk), disk)
      ensures memo == MemoAfter(web, old(memo), old(refs[..]), clock)
      ensures !grew ==> |memo| <= |old(memo)|
    {
      grew := false;
      ghost var was, disk0, memo0 := refs[..], disk, memo;
      var i := 0;
      while i < refs.Length
        invariant 0 <= i <= refs.Length
        invariant DiskSound(web, disk) && MemoSound(web, memo)
        invariant HostedUpTo(web, was, refs[..], i, disk0, disk)
        invariant memo == MemoAfter(web, memo0, was[..i], clock)
        invariant !grew ==> |memo| <= |memo0|
      {
        ghost var before, disk1 := refs[..], disk;
        OneMoreHosted(web, was, before, i, disk0, disk1);
        OneMoreRemembered(web, memo0, was, i, clock);
        var img, isNew := HostImage(refs[i], clock(i));
        refs[i] := img;
        grew := grew || isNew;
        assert refs[..] == before[i := img];
        i := i + 1;
      }
      assert was[..i] == was;
    }

    /** Rewrite the images of a batch in place.  Whatever the memo holds, images and disk come out
        as if each had been downloaded; the memo keeps the most recently used rows, up to the cap. */
    method HostImages(refs: array<ImageRef>, clock: nat -> Time)
      requires Valid()
      modifies this, refs
      ensures Valid()
      ensures refs[..] == HostGallery(web, old(refs[..])) && disk == DiskAfter(web, old(disk), old(refs[..]))
      ensures EvictsOldest(MemoAfter(web, old(memo), old(refs[..]), clock), memo)
      ensures |memo| == Capped(|MemoAfter(web, old(memo), old(refs[..]), clock)|)
    {
      ghost var was := refs[..];
      var grew := HostAll(refs, clock);
      assert was[..|was|] == was && was[|was|..] == [];
      if grew {
        EvictLru();
      }
    }

    method Unlink(names: set<string>, stuck: set<string>)
      modifies this`disk
      ensures disk == old(disk) - (names - stuck)
    {
      var todo := names;
      while todo != {}
        invariant todo <= names
        invariant disk == old(disk) - ((names - todo) - stuck)
        decreases todo
      {
        var name :| name in todo;
        todo := todo - {name};
        if name !in stuck {
          disk := disk - {name};
        }
      }
    }

    /** Delete the well-named files no live event references; `stuck` are those that will not go. */
    method Prune(t: Table, stuck: set<string>, dryRun: bool) returns (orphans: set<string>)
      requires Valid()
      modifies this`disk
      ensures Valid()
      ensures orphans == OrphanNames(old(disk), t)
      ensures disk == if dryRun then old(disk) else Pruned(old(disk), t, stuck)
    {
      orphans := OrphanNames(disk, t);
      if !dryRun {
        Unlink(orphans, stuck);
      }
    }

    method RehostImage(img: ImageRef) returns (img': ImageRef)
      requires HexDigests(web) && DiskSound(web, disk)
      modifies this`disk
      ensures DiskSound(web, disk)
      ensures (disk, img') == RehostOne(web, old(disk), img)
    {
      img' := img;
      if NeedsRehost(disk, img) {
        var local := Store(img.sourceUrl.value);
        if local.Some? {
          img' := img.(url := local.value);
        }
      }
    }

    /** Fetch again every hosted image whose file is missing and whose source is known. */
    method Rehost(images: seq<ImageRef>) returns (out: seq<ImageRef>)
      requires Valid()
      modifies this`disk
      ensures Valid()
      ensures (disk, out) == RehostAll(web, old(disk), images)
    {
      out := [];
      while |out| < |images|
        invariant |out| <= |images| && DiskSound(web, disk)
        invariant (disk, out) == RehostAll(web, old(disk), images[..|out|])
      {
        assert Front(images[..|out| + 1]) == images[..|out|];
        var img := RehostImage(images[|out|]);
        out := out + [img];
      }
      assert images[..|out|] == images;
    }
  }

  // ---- garbage collection -----------------------------------------------

  /** The file names the galleries of live events point at. */
  function Referenced(t: Table): set<string> {
    set id, img | id in t && t[id].archivedAt.None? && img in t[id].images
                  && PREFIX <= img.url && img.url != PREFIX :: img.url[|PREFIX|..]
  }

  function OrphanNames(disk: map<string, Bytes>, t: Table): set<string> {
    set name | name in disk && WellNamed(name) && name !in Referenced(t)
  }

  predicate OnDisk(disk: map<string, Bytes>, url: string) {
    FilenameOf(url).Some? && WellNamed(FilenameOf(url).value) && FilenameOf(url).value in disk
  }

  predicate NeedsRehost(disk: map<string, Bytes>, img: ImageRef) {
    FilenameOf(img.url).Some? && Truthy(img.sourceUrl) && !OnDisk(disk, img.url)
  }

  function RehostOne(web: Web, disk: map<string, Bytes>, img: ImageRef): (map<string, Bytes>, ImageRef) {
    if !NeedsRehost(disk, img) || web.fetch(img.sourceUrl.value).None? then (disk, img)
    else
      var r := web.fetch(img.sourceUrl.value).value;
      var name := NameOf(web, r, img.sourceUrl.value);
      (DiskWith(disk, name, r.content), img.(url := PREFIX + name))
  }

  function RehostAll(web: Web, disk: map<string, Bytes>, images: seq<ImageRef>): (map<string, Bytes>, seq<ImageRef>) {
    if images == [] then (disk, [])
    else
      var (disk', out) := RehostAll(web, disk, Front(images));
      var (disk'', img) := RehostOne(web, disk', Last(images));
      (disk'', out + [img])
  }

  /** The image was hosted from its source and the source still serves the same bytes. */
  ghost predicate Rehostable(web: Web, img: ImageRef) {
    && Truthy(img.sourceUrl) && web.fetch(img.sourceUrl.value).Some?
    && img.url == PREFIX + NameOf(web, web.fetch(img.sourceUrl.value).value, img.sourceUrl.value)
  }

  /** The image is external, has no source, cannot be fetched now, or is rehostable. */
  ghost predicate Steady(web: Web, img: ImageRef) {
    FilenameOf(img.url).None? || !Truthy(img.sourceUrl) || web.fetch(img.sourceUrl.value).None? || Rehostable(web, img)
  }

  lemma RehostableName(web: Web, img: ImageRef)
    requires HexDigests(web) && Rehostable(web, img)
    ensures FilenameOf(img.url).Some? && WellNamed(FilenameOf(img.url).value)
    ensures FilenameOf(img.url).value == NameOf(web, web.fetch(img.sourceUrl.value).value, img.sourceUrl.value)
  {
    StoredNamesAreWellNamed(web, web.fetch(img.sourceUrl.value).value, img.sourceUrl.value);
  }

  /** Every image that has to be fetched again when its turn comes is steady; the others, whose file
      is there or whose source is not known, may have sources that changed. */
  ghost predicate SteadyAtTurn(web: Web, disk: map<string, Bytes>, images: seq<ImageRef>) {
    images != [] ==>
      && SteadyAtTurn(web, disk, Front(images))
      && (NeedsRehost(RehostAll(web, disk, Front(images)).0, Last(images)) ==> Steady(web, Last(images)))
  }

  /** In particular when all of them are. */
  lemma {:induction false} AllSteadyAtTurn(web: Web, disk: map<string, Bytes>, images: seq<ImageRef>)
    requires forall img :: img in images ==> Steady(web, img)
    ensures SteadyAtTurn(web, disk, images)
  {
    if images != [] { AllSteadyAtTurn(web, disk, Front(images)); }
  }

  lemma RehostOneKeeps(web: Web, disk: map<string, Bytes>, img: ImageRef)
    ensures var (disk', img') := RehostOne(web, disk, img);
      && disk.Keys <= disk'.Keys
      && (img' == img <==> (NeedsRehost(disk, img) ==> Steady(web, img)))
      && (img' == img <==> img'.url == img.url)
  {
  }

  lemma RehostOneRestores(web: Web, disk: map<string, Bytes>, img: ImageRef)
    requires HexDigests(web) && Rehostable(web, img)
    ensures OnDisk(RehostOne(web, disk, img).0, img.url)
  {
    RehostableName(web, img);
  }

  /** The image needs no download: it is external, its file is here, or where it came from is not known. */
  predicate Settled(disk: map<string, Bytes>, img: ImageRef) {
    || !("/images/" <= img.url)
    || (WellNamed(img.url[8..]) && img.url[8..] in disk)
    || img.sourceUrl.None? || img.sourceUrl.value == ""
  }

  /** What re-hosting makes of one image: nothing of a settled one or of one that cannot be downloaded; any
      other points at what its source now serves, which is on disk, and keeps its caption and its
      source.  Files are only added. */
  lemma RehostedExactly(web: Web, disk: map<string, Bytes>, img: ImageRef)
    ensures var (disk', img') := RehostOne(web, disk, img);
      if Settled(disk, img) || web.fetch(img.sourceUrl.value).None? then disk' == disk && img' == img
      else
        var r := web.fetch(img.sourceUrl.value).value;
        var name := web.sha(r.content) + Extension(web, r.contentType, img.sourceUrl.value);
        && img'.url == "/images/" + name && img'.alt == img.alt && img'.sourceUrl == img.sourceUrl
        && disk'.Keys == disk.Keys + {name} && (forall n | n in disk :: disk'[n] == disk[n])
        && (name !in disk ==> disk'[name] == r.content)
  {
  }

  /** So a gallery of settled images comes back untouched, with no change to the disk, whatever their sources
      serve by now. */
  lemma {:induction false} SettledGalleryUntouched(web: Web, disk: map<string, Bytes>, images: seq<ImageRef>)
    requires forall img | img in images :: Settled(disk, img)
    ensures RehostAll(web, disk, images) == (disk, images)
  {
    if images != [] {
      assert images == Front(images) + [Last(images)];
      SettledGalleryUntouched(web, disk, Front(images));
      RehostedExactly(web, disk, Last(images));
    }
  }

  /** Re-hosting keeps a gallery and its addresses exactly when every image that has to be fetched
      again is steady. */
  lemma {:induction false} GalleryKeptExactly(web: Web, disk: map<string, Bytes>, images: seq<ImageRef>)
    ensures disk.Keys <= RehostAll(web, disk, images).0.Keys
    ensures |RehostAll(web, disk, images).1| == |images|
    ensures RehostAll(web, disk, images).1 == images <==> SteadyAtTurn(web, disk, images)
    ensures ImageUrls(RehostAll(web, disk, images).1) == ImageUrls(images) <==> SteadyAtTurn(web, disk, images)
  {
    if images != [] {
      var (disk1, out1) := RehostAll(web, disk, Front(images));
      var (disk2, img) := RehostOne(web, disk1, Last(images));
      GalleryKeptExactly(web, disk, Front(images));
      RehostOneKeeps(web, disk1, Last(images));
      assert images == Front(images) + [Last(images)];
      SnocUrls(out1, img, Front(images), Last(images));
    }
  }

  lemma SnocUrls(xs: seq<ImageRef>, x: ImageRef, ys: seq<ImageRef>, y: ImageRef)
    requires |xs| == |ys|
    ensures xs + [x] == ys + [y] <==> xs == ys && x == y
    ensures ImageUrls(xs + [x]) == ImageUrls(ys + [y]) <==> ImageUrls(xs) == ImageUrls(ys) && x.url == y.url
  {
    assert ImageUrls(xs + [x]) == ImageUrls(xs) + [x.url] && ImageUrls(ys + [y]) == ImageUrls(ys) + [y.url];
    SnocInjective(xs, x, ys, y);
    SnocInjective(ImageUrls(xs), x.url, ImageUrls(ys), y.url);
  }

  lemma SnocInjective<T>(xs: seq<T>, x: T, ys: seq<T>, y: T)
    requires |xs| == |ys|
    ensures xs + [x] == ys + [y] <==> xs == ys && x == y
  {
    assert xs == (xs + [x])[..|xs|] && ys == (ys + [y])[..|ys|];
    assert x == (xs + [x])[|xs|] && y == (ys + [y])[|ys|];
  }

  /** Whatever the sources serve meanwhile, re-hosting puts every rehostable image's file on disk and
      removes none; it changes no address exactly when what it has to fetch is steady. */
  lemma {:induction false} RehostRestores(web: Web, disk: map<string, Bytes>, images: seq<ImageRef>)
    requires HexDigests(web)
    ensures disk.Keys <= RehostAll(web, disk, images).0.Keys
    ensures RehostAll(web, disk, images).1 == images <==> SteadyAtTurn(web, disk, images)
    ensures forall img | img in images && Rehostable(web, img) :: OnDisk(RehostAll(web, disk, images).0, img.url)
  {
    GalleryKeptExactly(web, disk, images);
    if images != [] {
      assert images == Front(images) + [Last(images)];
      RehostRestores(web, disk, Front(images));
      var disk1 := RehostAll(web, disk, Front(images)).0;
      RehostOneKeeps(web, disk1, Last(images));
      if Rehostable(web, Last(images)) { RehostOneRestores(web, disk1, Last(images)); }
    }
  }

  /** The disk a committed prune leaves. */
  function Pruned(disk: map<string, Bytes>, t: Table, stuck: set<string>): map<string, Bytes> {
    disk - (OrphanNames(disk, t) - stuck)
  }

  /** What a committed prune leaves on disk: everything but the files this service wrote that no live event
      shows and that can be deleted.  No file changes. */
  lemma PrunedExactly(disk: map<string, Bytes>, t: Table, stuck: set<string>, name: string)
    ensures var pruned := Pruned(disk, t, stuck);
      && (name in pruned <==> name in disk && (!WellNamed(name) || Shown(t, "/images/" + name) || name in stuck))
      && (name in pruned ==> pruned[name] == disk[name])
  {
    if WellNamed(name) {
      PrefixedName(name);
      ReferencedMeansShown(t, PREFIX + name);
    }
  }

  /** Pruning and then restoring an archived event puts its rehostable images back, leaves its gallery
      at the same addresses exactly when what it has to fetch is steady, and never takes a file a
      live event shows. */
  lemma PruneThenRestore(web: Web, disk: map<string, Bytes>, t: Table, id: EventId, stuck: set<string>)
    requires HexDigests(web) && id in t
    ensures var pruned := Pruned(disk, t, stuck);
      var (disk', out) := RehostAll(web, pruned, t[id].images);
      && (out == t[id].images <==> SteadyAtTurn(web, pruned, t[id].images))
      && (forall img | img in t[id].images && Rehostable(web, img) :: OnDisk(disk', img.url))
      && (forall live, img |
            live in t && t[live].archivedAt.None? && img in t[live].images && OnDisk(disk, img.url) ::
            OnDisk(disk', img.url))
  {
    var pruned := Pruned(disk, t, stuck);
    RehostRestores(web, pruned, t[id].images);
    forall live, img | live in t && t[live].archivedAt.None? && img in t[live].images && OnDisk(disk, img.url)
      ensures OnDisk(pruned, img.url)
    {
      assert img.url != PREFIX;
      assert FilenameOf(img.url).value in Referenced(t);
    }
  }

  /** So the restored row is live, and its hash is still right exactly when what had to be fetched
      again is steady. */
  lemma RestoreAfterPruneIsCoherent(web: Web, disk: map<string, Bytes>, s: State, id: EventId, stuck: set<string>)
    requires HexDigests(web) && id in s.events && s.events[id].archivedAt.Some? && Coherent(s.events[id])
    ensures var pruned := Pruned(disk, s.events, stuck);
      var row := Archive.RestoreState(s, id, images => RehostAll(web, pruned, images).1).events[id];
      && row.archivedAt.None?
      && (Coherent(row) <==> SteadyAtTurn(web, pruned, s.events[id].images))
      && (Coherent(row) <==> row.images == s.events[id].images)
  {
    var pruned := Pruned(disk, s.events, stuck);
    GalleryKeptExactly(web, pruned, s.events[id].images);
    Archive.RestoreKeepsHash(s, id, images => RehostAll(web, pruned, images).1);
  }

  /** A restore that re-hosts so keeps the whole table coherent exactly when the row's images that have
      to be fetched again are steady. */
  lemma RestoreCoherentExactly(
    web: Web, disk: map<string, Bytes>, s: State, id: EventId, rehost: seq<ImageRef> -> seq<ImageRef>)
    requires forall images :: rehost(images) == RehostAll(web, disk, images).1
    requires Lifecycle.AllCoherent(s.events) && id in s.events && s.events[id].archivedAt.Some?
    ensures Lifecycle.AllCoherent(Archive.RestoreState(s, id, rehost).events)
       <==> SteadyAtTurn(web, disk, s.events[id].images)
  {
    Lifecycle.RestoreCoherent(s, id, rehost);
    GalleryKeptExactly(web, disk, s.events[id].images);
  }

  /** One missing image moves address exactly when its source is up and serves something else. */
  lemma ChangedSourceMovesAddress(web: Web, disk: map<string, Bytes>, img: ImageRef)
    requires NeedsRehost(disk, img)
    ensures ImageUrls(RehostAll(web, disk, [img]).1) == ImageUrls([img])
       <==> web.fetch(img.sourceUrl.value).None? || Rehostable(web, img)
  {
    assert Front([img]) == [];
    var out := RehostOne(web, disk, img).1;
    assert RehostAll(web, disk, [img]).1 == [] + [out] == [out];
    assert ImageUrls([img]) == [img.url] && ImageUrls([out]) == [out.url];
  }

  /** An image the service hosted and rewrote is rehostable as long as its source stays stable. */
  lemma HostedIsRehostable(web: Web, img: ImageRef)
    requires img.url != "" && !(PREFIX <= img.url) && web.fetch(img.url).Some?
    ensures Rehostable(web, HostedRef(web, img))
  {
  }

  lemma HostedIsSteady(web: Web, img: ImageRef)
    requires PREFIX <= img.url ==> Steady(web, img)
    ensures Steady(web, HostedRef(web, img))
  {
    if !(PREFIX <= img.url) && web.fetch(img.url).Some? && img.url != "" { HostedIsRehostable(web, img); }
  }

  lemma HostedGalleryIsSteady(web: Web, disk: map<string, Bytes>, gathered: seq<ImageRef>)
    requires forall img | img in gathered && PREFIX <= img.url :: Steady(web, img)
    ensures SteadyAtTurn(web, disk, HostGallery(web, gathered))
  {
    hide HostedRef, Steady, SteadyAtTurn;
    var images := HostGallery(web, gathered);
    forall img | img in images ensures Steady(web, img) {
      var k :| 0 <= k < |images| && images[k] == img;
      HostedIsSteady(web, gathered[k]);
    }
    AllSteadyAtTurn(web, disk, images);
  }

  /** The image could be downloaded, and was not here already. */
  predicate Downloads(web: Web, img: ImageRef) {
    !(PREFIX <= img.url) && img.url != "" && web.fetch(img.url).Some?
  }

  /** While downloads are stable, pruning and restoring is a round trip for every gallery this service
      hosted: the restored row is live, shows the same images at the same addresses under a hash
      that is still right, and the file of every image that could be downloaded is back. */
  lemma HostedGalleryComesBack(
    web: Web, disk: map<string, Bytes>, s: State, id: EventId, stuck: set<string>, gathered: seq<ImageRef>)
    requires HexDigests(web) && id in s.events && s.events[id].archivedAt.Some? && Coherent(s.events[id])
    requires s.events[id].images == HostGallery(web, gathered)
    requires forall img | img in gathered && PREFIX <= img.url :: Steady(web, img)
    ensures var pruned := Pruned(disk, s.events, stuck);
      var row := Archive.RestoreState(s, id, images => RehostAll(web, pruned, images).1).events[id];
      row.archivedAt.None? && row.images == s.events[id].images && Coherent(row)
    ensures var disk' := RehostAll(web, Pruned(disk, s.events, stuck), s.events[id].images).0;
      forall img | img in gathered && Downloads(web, img) :: OnDisk(disk', HostedRef(web, img).url)
  {
    var pruned, images := Pruned(disk, s.events, stuck), s.events[id].images;
    HostedGalleryIsSteady(web, pruned, gathered);
    RestoreAfterPruneIsCoherent(web, disk, s, id, stuck);
    HostedFilesComeBack(web, pruned, gathered);
  }

  lemma HostedFilesComeBack(web: Web, disk: map<string, Bytes>, gathered: seq<ImageRef>)
    requires HexDigests(web)
    ensures forall img | img in gathered && Downloads(web, img) ::
              OnDisk(RehostAll(web, disk, HostGallery(web, gathered)).0, HostedRef(web, img).url)
  {
    hide RehostAll, OnDisk, HostedRef, Rehostable, SteadyAtTurn;
    var images := HostGallery(web, gathered);
    RehostRestores(web, disk, images);
    forall img | img in gathered && Downloads(web, img)
      ensures OnDisk(RehostAll(web, disk, images).0, HostedRef(web, img).url)
    {
      var k :| 0 <= k < |gathered| && gathered[k] == img;
      assert images[k] == HostedRef(web, img);
      HostedIsRehostable(web, img);
    }
  }

  // ---- the images of queued posts ----------------------------------------

  /** The gallery an event made from a queued post gets: addresses alone, since the queue drops where
      they came from. */
  function QueuedGallery(p: PostQueue.Post): seq<ImageRef> {
    seq(|p.images|, i requires 0 <= i < |p.images| => ImageRef(p.images[i], None, None))
  }

  /** Some live event shows an image at this address. */
  ghost predicate Shown(t: Table, url: string) {
    exists id, img | id in t && img in t[id].images :: t[id].archivedAt.None? && img.url == url
  }

  lemma ReferencedMeansShown(t: Table, url: string)
    requires FilenameOf(url).Some? && FilenameOf(url).value != ""
    ensures FilenameOf(url).value in Referenced(t) <==> Shown(t, url)
  {
    var name := FilenameOf(url).value;
    assert url == PREFIX + name;
    if name in Referenced(t) {
      var id, img :| id in t && t[id].archivedAt.None? && img in t[id].images
                  && PREFIX <= img.url && img.url != PREFIX && img.url[|PREFIX|..] == name;
      assert img.url == PREFIX + name;
    }
    if Shown(t, url) {
      var id, img :| id in t && img in t[id].images && t[id].archivedAt.None? && img.url == url;
      assert img.url[|PREFIX|..] in Referenced(t);
    }
  }

  /** A prune does not look at the queue.  A waiting post's image survives one exactly when a live event
      shows it too, or the file would not go; and if it goes, no restore of the event made from the
      post ever brings it back. */
  lemma QueuedImageSurvivesExactly(
    web: Web, disk: map<string, Bytes>, t: Table, stuck: set<string>, p: PostQueue.Post, url: string)
    requires url in p.images && OnDisk(disk, url)
    ensures var pruned := Pruned(disk, t, stuck);
      && (OnDisk(pruned, url) <==> Shown(t, url) || FilenameOf(url).value in stuck)
      && RehostAll(web, pruned, QueuedGallery(p)) == (pruned, QueuedGallery(p))
  {
    ReferencedMeansShown(t, url);
    SettledGalleryUntouched(web, Pruned(disk, t, stuck), QueuedGallery(p));
  }
}
