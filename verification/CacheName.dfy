/** The names of cache entries and temporary files (src/runtime_cache.rs). */
module CacheName {
  import opened CacheKey
  import opened Digits

  /** Ends with the hash in sixteen hexadecimal digits and the heap size. */
  function RuntimeCacheFileName(version: string, heapSize: nat, target: string, hash: Hash): string {
    NameHead(version, target, hash) + Decimal(heapSize) + ".o"
  }

  function NameHead(version: string, target: string, hash: Hash): string {
    "runtime-v" + version + "-" + target + "-rt" + Hex(hash, 16) + "-heap"
  }

  /** The name determines target, heap size and hash. */
  lemma FileNameInjective(version: string, h1: nat, t1: string, hash1: Hash, h2: nat, t2: string, hash2: Hash)
    requires RuntimeCacheFileName(version, h1, t1, hash1) == RuntimeCacheFileName(version, h2, t2, hash2)
    ensures h1 == h2 && t1 == t2 && hash1 == hash2
  {
    var a, b := NameHead(version, t1, hash1), NameHead(version, t2, hash2);
    var n1, n2 := a + Decimal(h1) + ".o", b + Decimal(h2) + ".o";
    assert n1[..|n1| - 2] == a + Decimal(h1) && n2[..|n2| - 2] == b + Decimal(h2);
    TrailingDigits(a, Decimal(h1), b, Decimal(h2));
    DecimalInjective(h1, h2);
    var x, y := "runtime-v" + version + "-" + t1 + "-rt", "runtime-v" + version + "-" + t2 + "-rt";
    assert a[|a| - 21..|a| - 5] == Hex(hash1, 16) && b[|b| - 21..|b| - 5] == Hex(hash2, 16);
    SixteenDigits();
    HexInjective(hash1, hash2, 16);
    assert x == a[..|a| - 21] && y == b[..|b| - 21];
    var skip := |"runtime-v" + version + "-"|;
    assert x[skip..|x| - 3] == t1 && y[skip..|y| - 3] == t2;
  }

  // ----- temporary files -----

  /** Process id and time. */
  function Unique(pid: nat, nanos: nat): string {
    Decimal(pid) + "_" + Decimal(nanos)
  }

  /** The entry's name without `.o`. */
  function Stem(entry: string): string {
    if |entry| < 2 then entry else entry[..|entry| - 2]
  }

  function TempName(entry: string, unique: string, extension: string): string {
    Stem(entry) + "." + unique + extension
  }

  lemma SameLength(a: string, x: string, b: string, y: string)
    requires a + x == b + y && |x| == |y|
    ensures a == b && x == y
  {
    assert (a + x)[..|a|] == a && (b + y)[..|b|] == b;
    assert (a + x)[|a|..] == x && (b + y)[|b|..] == y;
  }

  lemma StemOf(version: string, heapSize: nat, target: string, hash: Hash)
    ensures Stem(RuntimeCacheFileName(version, heapSize, target, hash))
            == NameHead(version, target, hash) + Decimal(heapSize)
  {
    hide NameHead, Decimal;
    var a := NameHead(version, target, hash) + Decimal(heapSize);
    assert (a + ".o")[..|a + ".o"| - 2] == a;
  }

  lemma HeadEnds(version: string, target: string, hash: Hash)
    ensures var head := NameHead(version, target, hash); head != [] && head[|head| - 1] == 'p'
  {
    hide Hex;
  }

  /** No temporary file has the name of a cache entry. */
  lemma TempIsNoEntry(stem: string, pid: nat, nanos: nat, version: string, heapSize: nat, target: string, hash: Hash)
    ensures stem + "." + Unique(pid, nanos) + ".o" != RuntimeCacheFileName(version, heapSize, target, hash)
    ensures stem + "." + Unique(pid, nanos) + ".s" != RuntimeCacheFileName(version, heapSize, target, hash)
  {
    var head, a := NameHead(version, target, hash), stem + "." + Decimal(pid) + "_";
    HeadEnds(version, target, hash);
    hide NameHead, Decimal;
    assert stem + "." + Unique(pid, nanos) == a + Decimal(nanos);
    if a + Decimal(nanos) == head + Decimal(heapSize) {
      TrailingDigits(a, Decimal(nanos), head, Decimal(heapSize));
    }
    if stem + "." + Unique(pid, nanos) + ".o" == RuntimeCacheFileName(version, heapSize, target, hash) {
      SameLength(a + Decimal(nanos), ".o", head + Decimal(heapSize), ".o");
    }
    if stem + "." + Unique(pid, nanos) + ".s" == RuntimeCacheFileName(version, heapSize, target, hash) {
      SameLength(a + Decimal(nanos), ".s", head + Decimal(heapSize), ".o");
    }
  }

  /** Temporary files of the same name belong to the same entry, process and time. */
  lemma TempInjective(s1: string, p1: nat, n1: nat, x1: string, s2: string, p2: nat, n2: nat, x2: string)
    requires |x1| == |x2|
    requires s1 + "." + Unique(p1, n1) + x1 == s2 + "." + Unique(p2, n2) + x2
    ensures s1 == s2 && p1 == p2 && n1 == n2 && x1 == x2
  {
    var a, b := s1 + "." + Decimal(p1) + "_", s2 + "." + Decimal(p2) + "_";
    var c, d := s1 + ".", s2 + ".";
    hide Decimal;
    assert s1 + "." + Unique(p1, n1) == a + Decimal(n1);
    assert s2 + "." + Unique(p2, n2) == b + Decimal(n2);
    SameLength(a + Decimal(n1), x1, b + Decimal(n2), x2);
    TrailingDigits(a, Decimal(n1), b, Decimal(n2));
    SameLength(c + Decimal(p1), "_", d + Decimal(p2), "_");
    TrailingDigits(c, Decimal(p1), d, Decimal(p2));
    SameLength(s1, ".", s2, ".");
    DecimalInjective(n1, n2);
    DecimalInjective(p1, p2);
  }
}
