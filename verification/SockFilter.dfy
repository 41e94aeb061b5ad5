/** The socket-path filter (tools/net/sockdump.py): a pattern is compiled to comparisons of 64-bit words,
    which the probe evaluates on a path it copies from the kernel. */
module SockFilter {
  import opened Protocol

  const PATH_MAX: nat := 108
  const STAR: Byte := 42
  const AT: Byte := 64

  // ---- The compiler ----

  /** The code build_filter emits: `match = 1`, or comparisons of path[0], path[1], ..., on a path of which
      `len` bytes are read; or its ValueError. */
  datatype Filter = InvalidPath | MatchAll | Words(len: nat, words: seq<U64>)

  /** The bytes to compare: a trailing '*' is dropped; otherwise the terminating NUL belongs to them. */
  function Wanted(pattern: seq<Byte>): seq<Byte>
    requires pattern != []
  {
    if pattern[|pattern| - 1] == STAR then pattern[..|pattern| - 1]
    else if pattern[0] == AT then pattern[1..] + [0]
    else pattern + [0]
  }

  function Zeros(n: nat): (z: seq<Byte>)
    ensures |z| == n
  {
    seq(n, _ => 0)
  }

  function Padded(b: seq<Byte>): (r: seq<Byte>)
    ensures |r| == (|b| + 7) / 8 * 8
  {
    b + Zeros((|b| + 7) / 8 * 8 - |b|)
  }

  /** struct.unpack('Q'): the word at bytes 8 * i. */
  function WordOf(b: seq<Byte>, i: nat): U64
    requires 8 * i + 8 <= |b|
  {
    FieldSizes();
    FromLe(b[8 * i..8 * i + 8])
  }

  function BuildFilter(pattern: seq<Byte>): Filter
    requires pattern != []
  {
    var b := Wanted(pattern);
    if |b| > PATH_MAX then InvalidPath
    else if |b| == 0 then MatchAll
    else Words(|b|, seq((|b| + 7) / 8, i requires 0 <= i < (|b| + 7) / 8 => WordOf(Padded(b), i)))
  }

  // ---- The probe ----

  /** One end of a socket: without an address, or with one; `mem` is what can be read from sun_path on. */
  datatype Endpoint = Unnamed | Named(mem: seq<Byte>)

  predicate EndpointOk(e: Endpoint) {
    e.Named? ==> |e.mem| > PATH_MAX
  }

  /** Bytes in the probe's path array. */
  function PathSize(f: Filter): nat {
    if f.Words? then 8 * |f.words| else 8
  }

  function ReadLength(f: Filter): nat {
    if f.Words? then f.len else 0
  }

  predicate FilterOk(f: Filter) {
    !f.InvalidPath? && (f.Words? ==> 0 < f.len <= PATH_MAX && f.len <= 8 * |f.words|)
  }

  /** bpf_probe_read into path: one byte less, from behind the NUL, for an abstract address. */
  function Copied(path: seq<Byte>, len: nat, mem: seq<Byte>): (r: seq<Byte>)
    requires len <= |path| && len < |mem|
    ensures |r| == |path|
  {
    if len == 0 then path
    else if mem[0] == 0 then mem[1..len] + path[len - 1..]
    else mem[..len] + path[len..]
  }

  predicate Passes(f: Filter, path: seq<Byte>)
    requires FilterOk(f) && |path| == PathSize(f)
  {
    f.Words? ==> forall i :: 0 <= i < |f.words| ==> WordOf(path, i) == f.words[i]
  }

  /** Whether the probe reports a message between two end points. */
  predicate Accepts(f: Filter, own: Endpoint, peer: Endpoint)
    requires FilterOk(f) && EndpointOk(own) && EndpointOk(peer)
  {
    var path := Zeros(PathSize(f));
    var path1 := if own.Named? then Copied(path, ReadLength(f), own.mem) else path;
    (own.Named? && Passes(f, path1)) || (peer.Named? && Passes(f, Copied(path1, ReadLength(f), peer.mem)))
  }

  // ---- What it means ----

  /** `mem` holds this path, NUL-terminated; what lies behind the NUL is arbitrary. */
  predicate Holds(mem: seq<Byte>, path: seq<Byte>) {
    && 0 < |path| <= PATH_MAX < |mem| && mem[..|path|] == path && mem[|path|] == 0
    && forall i :: 0 <= i < |path| ==> path[i] != 0
  }

  /** The pattern names the path, or a prefix of it. */
  predicate Matches(pattern: seq<Byte>, path: seq<Byte>)
    requires pattern != []
  {
    if pattern[|pattern| - 1] == STAR then pattern[..|pattern| - 1] <= path else pattern == path
  }

  lemma {:induction false} FromLeInjective(a: seq<Byte>, b: seq<Byte>)
    requires |a| == |b| && FromLe(a) == FromLe(b)
    ensures a == b
  {
    FromLeRoundTrip(a);
    FromLeRoundTrip(b);
  }

  /** Equal words are equal bytes. */
  lemma WordsAreBytes(a: seq<Byte>, b: seq<Byte>, n: nat)
    requires |a| == |b| == 8 * n
    ensures a == b <==> forall i :: 0 <= i < n ==> WordOf(a, i) == WordOf(b, i)
  {
    if forall i :: 0 <= i < n ==> WordOf(a, i) == WordOf(b, i) {
      forall k | 0 <= k < |a| ensures a[k] == b[k] {
        var i := k / 8;
        assert WordOf(a, i) == WordOf(b, i);
        FromLeInjective(a[8 * i..8 * i + 8], b[8 * i..8 * i + 8]);
        assert a[8 * i..8 * i + 8][k - 8 * i] == b[8 * i..8 * i + 8][k - 8 * i];
      }
    }
  }

  /** The comparisons hold exactly of the wanted bytes with zeros behind them. */
  lemma PassesIffPadded(pattern: seq<Byte>, path: seq<Byte>)
    requires pattern != [] && BuildFilter(pattern).Words?
    requires |path| == PathSize(BuildFilter(pattern))
    ensures FilterOk(BuildFilter(pattern))
    ensures Passes(BuildFilter(pattern), path) <==> path == Padded(Wanted(pattern))
  {
    var f, wanted := BuildFilter(pattern), Padded(Wanted(pattern));
    WordsAreBytes(path, wanted, |f.words|);
    assert forall i :: 0 <= i < |f.words| ==> f.words[i] == WordOf(wanted, i);
  }

  /** The bytes read equal the wanted ones exactly when the path in memory matches the pattern: neither
      the padding nor what lies behind the NUL plays a part. */
  lemma WantedIffMatches(pattern: seq<Byte>, mem: seq<Byte>, path: seq<Byte>)
    requires pattern != [] && pattern[0] != AT && (forall i :: 0 <= i < |pattern| ==> pattern[i] != 0)
    requires Holds(mem, path) && |Wanted(pattern)| <= PATH_MAX
    ensures mem[..|Wanted(pattern)|] == Wanted(pattern) <==> Matches(pattern, path)
  {
    var wanted := Wanted(pattern);
    var n := |wanted|;
    if pattern[|pattern| - 1] == STAR {
      if n <= |path| {
        assert mem[..n] == path[..n];
      } else {
        assert mem[..n][|path|] == 0 && wanted[|path|] != 0;
      }
    } else {
      if pattern == path {
        assert mem[..n] == mem[..|path|] + [mem[|path|]];
      }
      if mem[..n] == wanted {
        assert mem[..n][|pattern|] == 0;
        assert forall i :: 0 <= i < |pattern| ==> mem[..n][i] == pattern[i];
        TheNulEndsIt(mem, path, pattern);
      }
    }
  }

  lemma TheNulEndsIt(mem: seq<Byte>, path: seq<Byte>, name: seq<Byte>)
    requires Holds(mem, path) && |name| < |mem| && mem[|name|] == 0
    requires forall i :: 0 <= i < |name| ==> mem[i] == name[i] != 0
    ensures name == path
  {
    assert forall i :: 0 <= i < |path| ==> mem[..|path|][i] == mem[i] != 0;
  }

  lemma PassesIffMatches(pattern: seq<Byte>, before: seq<Byte>, mem: seq<Byte>, path: seq<Byte>)
    requires pattern != [] && pattern[0] != AT && (forall i :: 0 <= i < |pattern| ==> pattern[i] != 0)
    requires Holds(mem, path) && FilterOk(BuildFilter(pattern))
    requires var f := BuildFilter(pattern);
             |before| == PathSize(f) && forall k :: ReadLength(f) <= k < |before| ==> before[k] == 0
    ensures var f := BuildFilter(pattern);
            var after := Copied(before, ReadLength(f), mem);
            && (forall k :: ReadLength(f) <= k < |after| ==> after[k] == 0)
            && (Passes(f, after) <==> Matches(pattern, path))
  {
    var f, wanted := BuildFilter(pattern), Wanted(pattern);
    var after := Copied(before, ReadLength(f), mem);
    assert mem[0] == path[0];
    WantedIffMatches(pattern, mem, path);
    if f.Words? {
      PassesIffPadded(pattern, after);
      assert after[..f.len] == mem[..f.len];
      assert Padded(wanted)[..f.len] == wanted;
      if after[..f.len] == wanted {
        assert after == Padded(wanted);
      }
    }
  }

  predicate IsFilesystem(e: Endpoint, path: seq<Byte>) {
    e.Named? ==> Holds(e.mem, path)
  }

  /** For every pattern the compiler takes that does not begin with '@', and end points that are unnamed
      or filesystem sockets, the probe accepts a message if and only if the path of one of them is the
      pattern, or begins with it if it ends in '*'. */
  lemma FilterIsByteMatching(pattern: seq<Byte>, own: Endpoint, ownPath: seq<Byte>,
                             peer: Endpoint, peerPath: seq<Byte>)
    requires pattern != [] && pattern[0] != AT && (forall i :: 0 <= i < |pattern| ==> pattern[i] != 0)
    requires IsFilesystem(own, ownPath) && IsFilesystem(peer, peerPath)
    requires !BuildFilter(pattern).InvalidPath?
    ensures FilterOk(BuildFilter(pattern))
    ensures Accepts(BuildFilter(pattern), own, peer) <==>
              (own.Named? && Matches(pattern, ownPath)) || (peer.Named? && Matches(pattern, peerPath))
  {
    var f := BuildFilter(pattern);
    var path := Zeros(PathSize(f));
    if own.Named? {
      PassesIffMatches(pattern, path, own.mem, ownPath);
      path := Copied(path, ReadLength(f), own.mem);
    }
    if peer.Named? {
      PassesIffMatches(pattern, path, peer.mem, peerPath);
    }
  }

  /** The compiler refuses exactly the patterns whose bytes, the NUL included, do not fit in sun_path: so
      a path of 108 bytes can be matched by a prefix, but not named. */
  lemma WhenPatternsAreRefused(pattern: seq<Byte>)
    requires pattern != [] && pattern[0] != AT
    ensures BuildFilter(pattern).InvalidPath? <==>
              if pattern[|pattern| - 1] == STAR then |pattern| > PATH_MAX + 1 else |pattern| >= PATH_MAX
  {
  }

  // ---- The probe's code ----

  /** bpf_probe_read(&path, ...) of one address. */
  method ReadPath(path: array<Byte>, len: nat, mem: seq<Byte>)
    requires len <= path.Length && len < |mem|
    modifies path
    ensures path[..] == Copied(old(path[..]), len, mem)
  {
    if len > 0 {
      if mem[0] == 0 {
        forall k | 0 <= k < len - 1 {
          path[k] := mem[1 + k];
        }
        assert path[..] == mem[1..len] + old(path[..])[len - 1..];
      } else {
        forall k | 0 <= k < len {
          path[k] := mem[k];
        }
        assert path[..] == mem[..len] + old(path[..])[len..];
      }
    }
  }

  /** The path part of probe_unix_socket_sendmsg: `path` starts zeroed and is reused for the peer. */
  method Probe(f: Filter, own: Endpoint, peer: Endpoint) returns (matched: bool)
    requires FilterOk(f) && EndpointOk(own) && EndpointOk(peer)
    ensures matched == Accepts(f, own, peer)
  {
    var path := new Byte[PathSize(f)](_ => 0);
    assert path[..] == Zeros(PathSize(f));
    matched := false;
    if own.Named? {
      ReadPath(path, ReadLength(f), own.mem);
      matched := Passes(f, path[..]);
    }
    if !matched && peer.Named? {
      ReadPath(path, ReadLength(f), peer.mem);
      matched := Passes(f, path[..]);
    }
  }
}
