/**
 * String utilities the generator relies on: decimal rendering of integers
 * (Rust's `{}` on an integer), `join` on a list of strings, and the ordering
 * a `BTreeMap<String, _>` keeps its keys in.
 */
module Text {

  predicate IsDigit(c: char) {
    '0' <= c <= '9'
  }

  function Digit(d: nat): (c: char)
    requires d < 10
    ensures IsDigit(c)
  {
    ('0' as int + d) as char
  }

  /** Decimal rendering of a natural number, most significant digit first. */
  function NatToString(n: nat): (s: string)
    ensures |s| >= 1
    ensures forall i :: 0 <= i < |s| ==> IsDigit(s[i])
    ensures |s| == 1 <==> n < 10
    decreases n
  {
    if n < 10 then [Digit(n)] else NatToString(n / 10) + [Digit(n % 10)]
  }

  /** Two numbers render the same only if they are equal. */
  lemma {:induction false} NatToStringInjective(m: nat, n: nat)
    requires NatToString(m) == NatToString(n)
    ensures m == n
    decreases m
  {
    if m < 10 || n < 10 {
      assert |NatToString(m)| == 1 && |NatToString(n)| == 1;
      assert NatToString(m)[0] == NatToString(n)[0];
    } else {
      var a, b := NatToString(m), NatToString(n);
      assert a == NatToString(m / 10) + [Digit(m % 10)];
      assert b == NatToString(n / 10) + [Digit(n % 10)];
      assert a[..|a| - 1] == NatToString(m / 10);
      assert b[..|b| - 1] == NatToString(n / 10);
      assert a[|a| - 1] == Digit(m % 10) && b[|b| - 1] == Digit(n % 10);
      NatToStringInjective(m / 10, n / 10);
    }
  }

  /**
   * If `p + x + q` equals `p + y + r`, where the first character of `q` does
   * not occur in `y` and the first of `r` does not occur in `x`, then `x` and
   * `y` are the same piece: each is delimited by what follows it.
   */
  lemma DelimitedAgree(p: string, x: string, q: string, y: string, r: string)
    requires |q| > 0 && q[0] !in y
    requires |r| > 0 && r[0] !in x
    requires p + x + q == p + y + r
    ensures x == y
  {
    var s := p + x + q;
    assert s == p + y + r;
    assert s[|p| + |x|] == q[0] && s[|p| + |y|] == r[0];
    assert forall i :: 0 <= i < |x| ==> s[|p| + i] == x[i];
    assert forall i :: 0 <= i < |y| ==> s[|p| + i] == y[i];
    if |x| == |y| {
      assert x == s[|p|..|p| + |x|];
      assert y == s[|p|..|p| + |y|];
    }
  }

  /** `parts.join(sep)`: the parts in order, with `sep` between neighbours. */
  function Join(sep: string, parts: seq<string>): string
    decreases |parts|
  {
    if |parts| == 0 then ""
    else if |parts| == 1 then parts[0]
    else parts[0] + sep + Join(sep, parts[1..])
  }

  /** Joining two non-empty lists is joining each and putting one separator between. */
  lemma {:induction false} JoinAppend(sep: string, a: seq<string>, b: seq<string>)
    requires |a| > 0 && |b| > 0
    ensures Join(sep, a + b) == Join(sep, a) + sep + Join(sep, b)
    decreases |a|
  {
    if |a| == 1 {
      assert (a + b)[1..] == b;
    } else {
      assert (a + b)[1..] == a[1..] + b;
      JoinAppend(sep, a[1..], b);
    }
  }

  /** Strict lexicographic order on strings, the order of Rust's `String` keys. */
  predicate LexLess(a: string, b: string)
    decreases |a|
  {
    if |a| == 0 then |b| > 0
    else if |b| == 0 then false
    else a[0] < b[0] || (a[0] == b[0] && LexLess(a[1..], b[1..]))
  }

  lemma {:induction false} LexLessIrreflexive(a: string)
    ensures !LexLess(a, a)
    decreases |a|
  {
    if |a| > 0 {
      LexLessIrreflexive(a[1..]);
    }
  }

  lemma {:induction false} LexLessTransitive(a: string, b: string, c: string)
    requires LexLess(a, b) && LexLess(b, c)
    ensures LexLess(a, c)
    decreases |a|
  {
    if |a| > 0 && |b| > 0 && |c| > 0 && a[0] == b[0] == c[0] {
      LexLessTransitive(a[1..], b[1..], c[1..]);
    }
  }

  lemma {:induction false} LexLessTotal(a: string, b: string)
    requires a != b
    ensures LexLess(a, b) || LexLess(b, a)
    decreases |a|
  {
    if |a| > 0 && |b| > 0 && a[0] == b[0] {
      assert a == [a[0]] + a[1..] && b == [b[0]] + b[1..];
      LexLessTotal(a[1..], b[1..]);
    }
  }

  // ---------------------------------------------------------------------------
  // Output built by appending lines, or runs of lines, one after another.

  /** `o` with the first `n` of `lines` appended one at a time. */
  function AppendLines(o: seq<string>, lines: seq<string>, n: nat): (r: seq<string>)
    requires n <= |lines|
    ensures |r| == |o| + n
  {
    if n == 0 then o else AppendLines(o, lines, n - 1) + [lines[n - 1]]
  }

  lemma {:induction false} AppendLinesAt(o: seq<string>, lines: seq<string>, n: nat, i: nat)
    requires n <= |lines| && i < |o| + n
    ensures AppendLines(o, lines, n)[i] == if i < |o| then o[i] else lines[i - |o|]
  {
    if n > 0 && i < |o| + n - 1 {
      AppendLinesAt(o, lines, n - 1, i);
    }
  }

  /** Appending the first `n` lines one by one appends the prefix of length `n` at once. */
  lemma {:induction false} AppendLinesPrefix(o: seq<string>, lines: seq<string>, n: nat)
    requires n <= |lines|
    ensures AppendLines(o, lines, n) == o + lines[..n]
  {
    if n > 0 {
      AppendLinesPrefix(o, lines, n - 1);
      assert lines[..n] == lines[..n - 1] + [lines[n - 1]];
    }
  }

  /** `o` with the first `n` of `blocks` appended, each a run of lines. */
  function AppendBlocks(o: seq<string>, blocks: seq<seq<string>>, n: nat): seq<string>
    requires n <= |blocks|
  {
    if n == 0 then o else AppendBlocks(o, blocks, n - 1) + blocks[n - 1]
  }

  predicate Uniform(blocks: seq<seq<string>>, n: nat, w: nat) {
    forall i :: 0 <= i < n && i < |blocks| ==> |blocks[i]| == w
  }

  lemma {:induction false} AppendBlocksLength(o: seq<string>, blocks: seq<seq<string>>, n: nat, w: nat)
    requires n <= |blocks| && Uniform(blocks, n, w)
    ensures |AppendBlocks(o, blocks, n)| == |o| + w * n
  {
    if n > 0 {
      AppendBlocksLength(o, blocks, n - 1, w);
      assert |blocks[n - 1]| == w;
      assert w * (n - 1) + w == w * n;
    }
  }

  /** Blocks of a common width `w` land at the multiples of `w`, in order. */
  lemma {:induction false} AppendBlocksAt(o: seq<string>, blocks: seq<seq<string>>, n: nat, w: nat, k: nat, j: nat)
    requires n <= |blocks| && Uniform(blocks, n, w)
    requires k < n && j < w
    ensures |o| + w * k + j < |AppendBlocks(o, blocks, n)|
    ensures AppendBlocks(o, blocks, n)[|o| + w * k + j] == blocks[k][j]
  {
    var prev := AppendBlocks(o, blocks, n - 1);
    AppendBlocksLength(o, blocks, n - 1, w);
    AppendBlocksLength(o, blocks, n, w);
    if k < n - 1 {
      AppendBlocksAt(o, blocks, n - 1, w, k, j);
    } else {
      assert |prev| == |o| + w * k;
      assert |blocks[k]| == w;
      assert (prev + blocks[k])[|prev| + j] == blocks[k][j];
    }
  }

  /** Appending more blocks only extends the text: earlier blocks keep their place. */
  lemma {:induction false} AppendBlocksPrefix(o: seq<string>, blocks: seq<seq<string>>, m: nat, n: nat)
    requires m <= n <= |blocks|
    ensures AppendBlocks(o, blocks, m) <= AppendBlocks(o, blocks, n)
    decreases n
  {
    if m < n {
      AppendBlocksPrefix(o, blocks, m, n - 1);
      var prev := AppendBlocks(o, blocks, n - 1);
      assert prev <= prev + blocks[n - 1];
    }
  }

  /** Block `k` follows the blocks before it, and the later blocks follow it. */
  lemma {:induction false} AppendBlocksAfter(o: seq<string>, blocks: seq<seq<string>>, k: nat, n: nat)
    requires k < n <= |blocks|
    ensures AppendBlocks(o, blocks, k) + blocks[k] <= AppendBlocks(o, blocks, n)
  {
    assert AppendBlocks(o, blocks, k + 1) == AppendBlocks(o, blocks, k) + blocks[k];
    AppendBlocksPrefix(o, blocks, k + 1, n);
  }

  lemma PrefixTrans(a: seq<string>, b: seq<string>, c: seq<string>)
    requires a <= b && b <= c
    ensures a <= c
  {
    assert c[..|a|] == c[..|b|][..|a|];
  }

  lemma PrefixAt(a: seq<string>, b: seq<string>, i: nat)
    requires a <= b && i < |a|
    ensures i < |b| && b[i] == a[i]
  {
    assert b[..|a|][i] == b[i];
  }

  lemma PrefixSlice(a: seq<string>, b: seq<string>, i: nat, j: nat)
    requires a <= b && i <= j <= |a|
    ensures j <= |b| && b[i..j] == a[i..j]
  {
    assert b[..|a|][i..j] == b[i..j];
  }

  /** Appending a run only extends the text. */
  lemma Extends(o: seq<string>, more: seq<string>)
    ensures o <= o + more
  {
    assert (o + more)[..|o|] == o;
  }

  lemma AppendLinesExtends(o: seq<string>, lines: seq<string>, n: nat)
    requires n <= |lines|
    ensures o <= AppendLines(o, lines, n)
  {
    AppendLinesPrefix(o, lines, n);
    Extends(o, lines[..n]);
  }

  /** The run `block` occupies the lines of `c` from line `p` on. */
  predicate RunAt(c: seq<string>, p: nat, block: seq<string>) {
    p + |block| <= |c| && c[p..p + |block|] == block
  }

  /** A run of lines stays where it is when the text is extended. */
  lemma RunInPrefix(a: seq<string>, b: seq<string>, p: nat, block: seq<string>)
    requires a <= b && RunAt(a, p, block)
    ensures RunAt(b, p, block)
  {
    PrefixSlice(a, b, p, p + |block|);
  }

  /** A run written after `q` sits, in any extension of the text, right after `q`. */
  lemma RunAfter(q: seq<string>, block: seq<string>, c: seq<string>)
    requires q + block <= c
    ensures RunAt(c, |q|, block)
  {
    assert c[..|q + block|] == q + block;
    assert c[|q|..|q| + |block|] == (q + block)[|q|..];
  }

  /** Writing two runs one after the other is writing their concatenation. */
  lemma AppendAssoc(o: seq<string>, a: seq<string>, b: seq<string>)
    ensures o + a + b == o + (a + b)
  {
  }
}
