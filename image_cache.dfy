/**
 * The on-disk poster cache: a directory of files, one per cached image, whose
 * file name is the decimal description of the hash of the image URL's
 * absolute string.
 *
 * The directory is a map from file name to bytes. The string hash is a
 * function fixed when the cache is created. JPEG encoding and decoding are
 * left out: the cache stores and returns the encoded bytes. How a file
 * system call ends (including how far a failing one got) is a parameter.
 */
module ImageCache {
  import opened Wrappers
  import opened Entities

  function DigitChar(d: int): char
    requires 0 <= d < 10
  {
    ('0' as int + d) as char
  }

  /** The decimal digits of `n`, most significant first, without leading zeros. */
  function Digits(n: nat): (r: string)
    ensures |r| >= 1
    ensures |r| == 1 <==> n < 10
    ensures forall i :: 0 <= i < |r| ==> '0' <= r[i] <= '9'
  {
    if n < 10 then [DigitChar(n)] else Digits(n / 10) + [DigitChar(n % 10)]
  }

  /** Swift's `Int.description`: the decimal digits, prefixed with "-" when negative. */
  function Description(n: int): (r: string)
    ensures |r| >= 1
    ensures r[0] == '-' <==> n < 0
    ensures forall i :: 1 <= i < |r| ==> '0' <= r[i] <= '9'
  {
    if n < 0 then "-" + Digits(-n) else Digits(n)
  }

  lemma {:induction false} DigitsInjective(a: nat, b: nat)
    requires Digits(a) == Digits(b)
    ensures a == b
  {
    var da := Digits(a);
    if a < 10 {
      assert da[0] == DigitChar(a) && da[0] == DigitChar(b);
    } else {
      assert da == Digits(a / 10) + [DigitChar(a % 10)];
      assert da == Digits(b / 10) + [DigitChar(b % 10)];
      assert Digits(a / 10) == da[..|da| - 1] == Digits(b / 10);
      DigitsInjective(a / 10, b / 10);
    }
  }

  /** Distinct hashes give distinct file names, so two URLs share a cache file exactly when their hashes collide. */
  lemma DescriptionInjective(a: int, b: int)
    ensures Description(a) == Description(b) <==> a == b
  {
    if Description(a) == Description(b) {
      if a < 0 {
        assert Description(a)[0] == '-';
        assert Description(a)[1..] == Digits(-a);
        assert Description(b)[1..] == Digits(-b);
        DigitsInjective(-a, -b);
      } else {
        assert Description(a)[0] != '-';
        DigitsInjective(a, b);
      }
    }
  }

  /**
   * How a non-atomic `Data.write(to:)` ends: the whole file written, a
   * failure before the file was opened, or a failure after the file was
   * truncated and `kept` bytes of the data were written.
   */
  datatype WriteOutcome = Written | FailedBeforeOpen | FailedAfter(kept: nat)

  /** The first `n` bytes of `data`, or all of it when it is shorter. */
  function Prefix(data: Bytes, n: nat): (r: Bytes)
    ensures |r| <= |data| && r == data[..|r|]
  {
    if n < |data| then data[..n] else data
  }

  class ImageCacheManager {
    /** The string hash the file names are derived from. */
    const hash: string -> int
    /** Whether the cache directory exists. */
    var directoryExists: bool
    /** The files in the cache directory, by name. */
    var files: map<string, Bytes>

    /** Without a directory there are no cached files. */
    ghost predicate Valid()
      reads this
    {
      !directoryExists ==> files == map[]
    }

    /** `cacheFilePath`: the name of the file that caches `url`, a pure function of its absolute string. */
    function CacheFileName(url: Url): (r: string)
      ensures |r| >= 1
      ensures r[0] == '-' <==> hash(url.absoluteString) < 0
    {
      Description(hash(url.absoluteString))
    }

    /** Two URLs map to the same cache file exactly when their strings' hashes collide. */
    lemma SameFileIffSameHash(a: Url, b: Url)
      ensures CacheFileName(a) == CacheFileName(b) <==> hash(a.absoluteString) == hash(b.absoluteString)
    {
      DescriptionInjective(hash(a.absoluteString), hash(b.absoluteString));
    }

    /**
     * The cache at launch: `onDisk` is the directory left by an earlier run, if
     * any; otherwise the directory is created, which may fail.
     */
    constructor (hash: string -> int, onDisk: Option<map<string, Bytes>>, createOk: bool)
      ensures this.hash == hash && Valid()
      ensures onDisk.Some? ==> directoryExists && files == onDisk.value
      ensures onDisk.None? ==> directoryExists == createOk && files == map[]
    {
      this.hash := hash;
      if onDisk.Some? {
        directoryExists, files := true, onDisk.value;
      } else {
        directoryExists, files := createOk, map[];
      }
    }

    /**
     * `saveImageToCache`: writes the encoded image to the URL's file,
     * replacing what was there. Nothing happens when encoding fails
     * (`jpeg == None`). The write is not atomic: a write that fails after
     * opening the file leaves it truncated to the bytes written so far.
     * Without a directory the write fails before any file is opened.
     */
    method SaveImageToCache(jpeg: Option<Bytes>, url: Url, write: WriteOutcome)
      modifies this`files
      ensures !(jpeg.Some? && directoryExists) ==> files == old(files)
      ensures jpeg.Some? && directoryExists ==>
                files == match write
                         case Written => old(files)[CacheFileName(url) := jpeg.value]
                         case FailedBeforeOpen => old(files)
                         case FailedAfter(kept) => old(files)[CacheFileName(url) := Prefix(jpeg.value, kept)]
      ensures old(Valid()) ==> Valid()
    {
      if jpeg.None? || !directoryExists {
        return;
      }
      var path := CacheFileName(url);
      match write
      case Written =>
        files := files[path := jpeg.value];
      case FailedBeforeOpen =>
      case FailedAfter(kept) =>
        files := files[path := Prefix(jpeg.value, kept)];
    }

    /** `loadImageFromCache`: the bytes of the URL's file, or `None` when there is no such file or it cannot be read. */
    method LoadImageFromCache(url: Url, readOk: bool) returns (image: Option<Bytes>)
      ensures image.Some? <==> readOk && CacheFileName(url) in files
      ensures image.Some? ==> image.value == files[CacheFileName(url)]
    {
      var path := CacheFileName(url);
      if path in files && readOk {
        image := Some(files[path]);
      } else {
        image := None;
      }
    }

    /** `imageExistsInCache`: whether the URL's file exists. */
    method ImageExistsInCache(url: Url) returns (exists_: bool)
      ensures exists_ <==> CacheFileName(url) in files
    {
      exists_ := CacheFileName(url) in files;
    }

    /**
     * `clearCache`: removes the directory and creates it again. Removal
     * deletes the files one by one and may fail part way, after deleting
     * `removedBeforeFailure`; then the directory stays and no creation is
     * attempted. Without a directory removal fails and nothing changes.
     */
    method ClearCache(removeOk: bool, removedBeforeFailure: set<string>, createOk: bool)
      modifies this
      ensures old(directoryExists) && removeOk ==> files == map[] && directoryExists == createOk
      ensures old(directoryExists) && !removeOk ==> files == old(files) - removedBeforeFailure && directoryExists
      ensures !old(directoryExists) ==> files == old(files) && !directoryExists
      ensures old(Valid()) ==> Valid()
    {
      if !directoryExists {
        return;
      }
      if !removeOk {
        files := files - removedBeforeFailure;
        return;
      }
      files := map[];
      directoryExists := createOk;
    }
  }

  /** Saving then loading the same URL gives back the saved bytes. */
  method SaveThenLoad(cache: ImageCacheManager, image: Bytes, url: Url) returns (loaded: Option<Bytes>)
    requires cache.directoryExists
    modifies cache
    ensures loaded == Some(image)
  {
    cache.SaveImageToCache(Some(image), url, Written);
    loaded := cache.LoadImageFromCache(url, true);
  }

  /** Two URLs whose hashes collide share one file: the later save wins for both. */
  method CollidingSavesShareOneFile(cache: ImageCacheManager, first: Bytes, second: Bytes, a: Url, b: Url)
    returns (loadedA: Option<Bytes>, loadedB: Option<Bytes>)
    requires cache.directoryExists
    requires cache.hash(a.absoluteString) == cache.hash(b.absoluteString)
    modifies cache
    ensures loadedA == Some(second) && loadedB == Some(second)
  {
    cache.SaveImageToCache(Some(first), a, Written);
    cache.SaveImageToCache(Some(second), b, Written);
    loadedA := cache.LoadImageFromCache(a, true);
    loadedB := cache.LoadImageFromCache(b, true);
  }

  /**
   * Saving under one URL, however the write ends, leaves the cached bytes of
   * any URL with a different hash as they were.
   */
  method SaveKeepsOtherUrls(cache: ImageCacheManager, jpeg: Option<Bytes>, url: Url, write: WriteOutcome, other: Url)
    returns (before: Option<Bytes>, after: Option<Bytes>)
    requires cache.hash(url.absoluteString) != cache.hash(other.absoluteString)
    modifies cache
    ensures before == after
  {
    cache.SameFileIffSameHash(url, other);
    before := cache.LoadImageFromCache(other, true);
    cache.SaveImageToCache(jpeg, url, write);
    after := cache.LoadImageFromCache(other, true);
  }

  /**
   * A write that fails after opening the file leaves a file behind, so the
   * URL counts as cached although its bytes are only a prefix of the image.
   */
  method FailedSaveCanLeaveAFile(cache: ImageCacheManager, image: Bytes, url: Url, kept: nat)
    returns (cached: bool, loaded: Option<Bytes>)
    requires cache.directoryExists && kept < |image|
    modifies cache
    ensures cached && loaded == Some(image[..kept]) && loaded != Some(image)
  {
    cache.SaveImageToCache(Some(image), url, FailedAfter(kept));
    cached := cache.ImageExistsInCache(url);
    loaded := cache.LoadImageFromCache(url, true);
  }

  /** After a successful clear no URL is cached. */
  method ClearThenExists(cache: ImageCacheManager, url: Url) returns (cached: bool, loaded: Option<Bytes>)
    requires cache.directoryExists
    modifies cache
    ensures !cached && loaded == None
  {
    cache.ClearCache(true, {}, true);
    cached := cache.ImageExistsInCache(url);
    loaded := cache.LoadImageFromCache(url, true);
  }

  /** A clear that fails part way keeps only files that were there before. */
  method FailedClearKeepsOnlyOldFiles(cache: ImageCacheManager, removedBeforeFailure: set<string>, url: Url)
    returns (before: Option<Bytes>, after: Option<Bytes>)
    requires cache.directoryExists
    modifies cache
    ensures after.Some? ==> after == before
    ensures cache.CacheFileName(url) in removedBeforeFailure ==> after.None?
  {
    before := cache.LoadImageFromCache(url, true);
    cache.ClearCache(false, removedBeforeFailure, true);
    after := cache.LoadImageFromCache(url, true);
  }
}
