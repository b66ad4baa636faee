/**
 * DesyncUtils.computeDelay: the per-run delay that spreads the firings of one
 * job across instances. It is a stable per-instance splay derived from
 * Objects.hash(appName, host, key), plus half of a random draw from the
 * window, plus a random jitter, clamped into [0, window] milliseconds.
 *
 * The two ThreadLocalRandom draws are parameters: `rand` stands for the value
 * of nextLong(0, winMs + 1) and `jit` for nextLong(-jitBound, jitBound + 1).
 * The delay bound is proved for every value of those parameters.
 */
module DesyncUtils {
  import opened Wrappers
  import opened JavaLang
  import opened JavaTime

  /** DesyncUtils.clamp: v pushed into [lo, hi], as max(lo, min(hi, v)). */
  function Clamp(lo: int, hi: int, v: int): (r: int)
    ensures lo <= hi ==> lo <= r <= hi
    ensures lo <= v <= hi ==> r == v
    ensures lo <= hi && v < lo ==> r == lo
    ensures lo <= hi && hi < v ==> r == hi
    ensures hi < lo ==> r == lo
  {
    var m := if hi < v then hi else v;
    if lo < m then m else lo
  }

  lemma ClampIdempotent(lo: int, hi: int, v: int)
    ensures Clamp(lo, hi, Clamp(lo, hi, v)) == Clamp(lo, hi, v)
  {
  }

  /** Clamping never reverses the order of two values. */
  lemma ClampMonotone(lo: int, hi: int, v: int, w: int)
    requires v <= w
    ensures Clamp(lo, hi, v) <= Clamp(lo, hi, w)
  {
  }

  // ---------- Objects.hash ----------

  /** String.hashCode: h = 31 * h + c over the chars, in 32-bit arithmetic. */
  function StringHash(s: string): (h: int)
    ensures IsInt(h)
  {
    if s == [] then 0 else WrapInt(31 * StringHash(s[..|s| - 1]) + s[|s| - 1] as int)
  }

  /** The contribution of one argument to Arrays.hashCode: 0 for null. */
  function ElementHash(o: Option<string>): (h: int)
    ensures IsInt(h)
    ensures o.None? ==> h == 0
  {
    if o.None? then 0 else StringHash(o.value)
  }

  function HashStep(acc: int, o: Option<string>): int
  {
    WrapInt(31 * acc + ElementHash(o))
  }

  /** Objects.hash(a, b, c), which is Arrays.hashCode of [a, b, c]. */
  function ObjectsHash(a: Option<string>, b: Option<string>, c: Option<string>): (h: int)
    ensures IsInt(h)
  {
    HashStep(HashStep(HashStep(1, a), b), c)
  }

  /** The identity hash depends on the order of its arguments. */
  lemma ObjectsHashOrderDependent()
    ensures ObjectsHash(Some("a"), Some("b"), Some("")) == 126046
    ensures ObjectsHash(Some("b"), Some("a"), Some("")) == 126976
  {
    assert StringHash("a") == 97 by {
      assert "a"[..0] == "";
    }
    assert StringHash("b") == 98 by {
      assert "b"[..0] == "";
    }
  }

  // ---------- computeDelay ----------

  /** Math.max(1L, window.toMillis()): the window in milliseconds, at least 1. */
  function WindowMillis(window: Duration): (w: int)
    ensures w >= 1
    ensures window.ToMillis() >= 1 ==> w == window.ToMillis()
    ensures window.ToMillis() < 1 ==> w == 1
  {
    if window.ToMillis() < 1 then 1 else window.ToMillis()
  }

  /** Math.floorMod(Objects.hash(appName, host, key), winMs): the stable per-instance offset. */
  function Splay(key: Option<string>, appName: Option<string>, host: Option<string>, winMs: int): (s: int)
    requires winMs >= 1
    ensures 0 <= s < winMs
  {
    ObjectsHash(appName, host, key) % winMs
  }

  /** Math.max(0L, jitter.toMillis()). */
  function JitterBound(jitter: Duration): (b: int)
    ensures b >= 0
    ensures jitter.ToMillis() >= 0 ==> b == jitter.ToMillis()
    ensures jitter.ToMillis() < 0 ==> b == 0
  {
    if jitter.ToMillis() < 0 then 0 else jitter.ToMillis()
  }

  /** The jitter term: no draw is made, and the term is zero, when the bound is zero. */
  function JitterTerm(jitBound: int, jit: int): (j: int)
  {
    if jitBound == 0 then 0 else jit
  }

  /** What the two nextLong calls may return: rand in [0, winMs], jit in [-jitBound, jitBound]. */
  predicate DrawsInRange(winMs: int, jitBound: int, rand: int, jit: int)
  {
    0 <= rand <= winMs && (jitBound == 0 || -jitBound <= jit <= jitBound)
  }

  /** splayMs + randMs / 2 + jitMs, evaluated in `long` arithmetic, before clamping. */
  function RawDelayMillis(key: Option<string>, appName: Option<string>, host: Option<string>,
                          window: Duration, jitter: Duration, rand: int, jit: int): int
  {
    var winMs := WindowMillis(window);
    WrapLong(WrapLong(Splay(key, appName, host, winMs) + JDiv(rand, 2)) + JitterTerm(JitterBound(jitter), jit))
  }

  /** DesyncUtils.computeDelay: the delay is whole milliseconds in [0, winMs], whatever the draws. */
  function ComputeDelay(key: Option<string>, appName: Option<string>, host: Option<string>,
                        window: Duration, jitter: Duration, rand: int, jit: int): (d: Duration)
    ensures 0 <= d.ToMillis() <= WindowMillis(window)
    ensures !d.IsNegative()
    ensures d == OfMillis(d.ToMillis())
  {
    OfMillis(Clamp(0, WindowMillis(window), RawDelayMillis(key, appName, host, window, jitter, rand, jit)))
  }

  /** A window of a millisecond or less (zero, negative, sub-millisecond) acts as 1 ms. */
  lemma DegenerateWindowIsOneMilli(key: Option<string>, appName: Option<string>, host: Option<string>,
                                   window: Duration, jitter: Duration, rand: int, jit: int)
    requires window.ToMillis() <= 1
    ensures ComputeDelay(key, appName, host, window, jitter, rand, jit).ToMillis() in {0, 1}
  {
  }

  /** With a zero or negative jitter the second draw is never consulted. */
  lemma NoJitterIgnoresDraw(key: Option<string>, appName: Option<string>, host: Option<string>,
                            window: Duration, jitter: Duration, rand: int, jit1: int, jit2: int)
    requires jitter.ToMillis() <= 0
    ensures ComputeDelay(key, appName, host, window, jitter, rand, jit1)
         == ComputeDelay(key, appName, host, window, jitter, rand, jit2)
  {
  }

  /** With draws in their documented ranges the `long` sum does not overflow. */
  lemma RawDelayExact(key: Option<string>, appName: Option<string>, host: Option<string>,
                      window: Duration, jitter: Duration, rand: int, jit: int)
    requires 2 * WindowMillis(window) + JitterBound(jitter) <= LONG_MAX
    requires DrawsInRange(WindowMillis(window), JitterBound(jitter), rand, jit)
    ensures var winMs := WindowMillis(window);
            var j := JitterTerm(JitterBound(jitter), jit);
            && RawDelayMillis(key, appName, host, window, jitter, rand, jit)
               == Splay(key, appName, host, winMs) + rand / 2 + j
            && -JitterBound(jitter) <= j <= JitterBound(jitter)
            && 0 <= rand / 2 <= winMs / 2
  {
    var winMs := WindowMillis(window);
    var splay := Splay(key, appName, host, winMs);
    var half := JDiv(rand, 2);
    assert half == rand / 2;
    var j := JitterTerm(JitterBound(jitter), jit);
    assert WrapLong(splay + half) == splay + half;
    assert WrapLong(splay + half + j) == splay + half + j;
  }

  /**
   * With draws in their documented ranges the delay sits between the clamped
   * splay minus the jitter bound and the clamped splay plus half the window
   * plus the jitter bound.
   */
  lemma DelayBand(key: Option<string>, appName: Option<string>, host: Option<string>,
                  window: Duration, jitter: Duration, rand: int, jit: int)
    requires 2 * WindowMillis(window) + JitterBound(jitter) <= LONG_MAX
    requires DrawsInRange(WindowMillis(window), JitterBound(jitter), rand, jit)
    ensures var winMs := WindowMillis(window);
            var splay := Splay(key, appName, host, winMs);
            var jb := JitterBound(jitter);
            var d := ComputeDelay(key, appName, host, window, jitter, rand, jit).ToMillis();
            Clamp(0, winMs, splay - jb) <= d <= Clamp(0, winMs, splay + winMs / 2 + jb)
  {
    var winMs := WindowMillis(window);
    var splay := Splay(key, appName, host, winMs);
    var jb := JitterBound(jitter);
    RawDelayExact(key, appName, host, window, jitter, rand, jit);
    var raw := RawDelayMillis(key, appName, host, window, jitter, rand, jit);
    ClampMonotone(0, winMs, splay - jb, raw);
    ClampMonotone(0, winMs, raw, splay + winMs / 2 + jb);
  }

  /** With no jitter and the splay plus half the draw inside the window, nothing is clamped. */
  lemma ExactDelayWhenUnclamped(key: Option<string>, appName: Option<string>, host: Option<string>,
                                window: Duration, jitter: Duration, rand: int, jit: int)
    requires 2 * WindowMillis(window) <= LONG_MAX
    requires jitter.ToMillis() <= 0
    requires 0 <= rand
    requires rand <= WindowMillis(window)
    requires Splay(key, appName, host, WindowMillis(window)) + rand / 2 <= WindowMillis(window)
    ensures ComputeDelay(key, appName, host, window, jitter, rand, jit).ToMillis()
         == Splay(key, appName, host, WindowMillis(window)) + rand / 2
  {
    RawDelayExact(key, appName, host, window, jitter, rand, jit);
  }
}
