/** A folder of chunk files named by a prefix and a decimal index, as both
    disk-based servers keep them, and the combine loop they share: files
    0..n-1 are appended to the output in index order and deleted one by one
    until one is missing. The ASP.NET controller names chunk i by its index
    alone (empty prefix); the Express server by `{filename}_chunk_{i}`. */
module NumberedFiles {
  import opened Common

  /** The name of chunk file i. */
  function Numbered(prefix: string, i: nat): (r: string)
    ensures |r| > |prefix| && r[..|prefix|] == prefix
  {
    prefix + Decimal(i)
  }

  /** With the empty prefix, a chunk file is named `i.ToString()`. */
  lemma PlainNumbered(i: nat)
    ensures Numbered("", i) == IntText(i)
  {
    assert "" + Decimal(i) == Decimal(i);
  }

  /** Distinct indices name distinct files. */
  lemma NumberedInjective(prefix: string, i: nat, j: nat)
    requires Numbered(prefix, i) == Numbered(prefix, j)
    ensures i == j
  {
    assert Decimal(i) == Numbered(prefix, i)[|prefix|..];
    assert Decimal(j) == Numbered(prefix, j)[|prefix|..];
    DecimalInjective(i, j);
  }

  /** The names of chunk files 0..k-1. */
  function Names(prefix: string, k: nat): set<string>
  {
    if k == 0 then {} else Names(prefix, k - 1) + {Numbered(prefix, k - 1)}
  }

  /** The name of file i is among the names 0..k-1 exactly when i < k. */
  lemma {:induction false} NamesHold(prefix: string, i: nat, k: nat)
    ensures Numbered(prefix, i) in Names(prefix, k) <==> i < k
  {
    if k > 0 {
      NamesHold(prefix, i, k - 1);
      assert Names(prefix, k) == Names(prefix, k - 1) + {Numbered(prefix, k - 1)};
      if i != k - 1 {
        assert Numbered(prefix, i) != Numbered(prefix, k - 1) by {
          if Numbered(prefix, i) == Numbered(prefix, k - 1) {
            NumberedInjective(prefix, i, k - 1);
          }
        }
      }
    }
  }

  /** Every one of the names 0..n-1 is the name of an index below n. */
  lemma {:induction false} NameOf(prefix: string, name: string, n: nat)
    requires name in Names(prefix, n)
    ensures exists i: nat | i < n :: name == Numbered(prefix, i)
  {
    if name != Numbered(prefix, n - 1) {
      NameOf(prefix, name, n - 1);
      var i: nat :| i < n - 1 && name == Numbered(prefix, i);
      assert i < n;
    }
  }

  /** The names 0..n-1 are n distinct names. */
  lemma {:induction false} NamesCount(prefix: string, n: nat)
    ensures |Names(prefix, n)| == n
  {
    if n > 0 {
      NamesCount(prefix, n - 1);
      NamesHold(prefix, n - 1, n - 1);
    }
  }

  /** The first index below n whose file is missing from dir, or n. */
  function FirstMissing(dir: map<string, Bytes>, prefix: string, n: nat): (k: nat)
    ensures k <= n
    ensures forall j: nat | j < k :: Numbered(prefix, j) in dir
    ensures k < n ==> Numbered(prefix, k) !in dir
  {
    if n == 0 then 0
    else
      var k := FirstMissing(dir, prefix, n - 1);
      if k < n - 1 then k
      else if Numbered(prefix, n - 1) in dir then n
      else n - 1
  }

  /** FirstMissing is the first index whose file is absent. */
  lemma {:induction false} FirstMissingIs(dir: map<string, Bytes>, prefix: string, n: nat, i: nat)
    requires i <= n
    requires forall j: nat | j < i :: Numbered(prefix, j) in dir
    requires i < n ==> Numbered(prefix, i) !in dir
    ensures FirstMissing(dir, prefix, n) == i
  {
    if n > 0 && i < n {
      if i < n - 1 {
        FirstMissingIs(dir, prefix, n - 1, i);
      } else {
        FirstMissingIs(dir, prefix, n - 1, n - 1);
      }
    } else if n > 0 {
      FirstMissingIs(dir, prefix, n - 1, n - 1);
    }
  }

  /** Files 0..k-1, copied one after another into the output. */
  function Written(dir: map<string, Bytes>, prefix: string, k: nat): Bytes
    requires forall j: nat | j < k :: Numbered(prefix, j) in dir
  {
    if k == 0 then [] else Written(dir, prefix, k - 1) + dir[Numbered(prefix, k - 1)]
  }

  /** The copy loop of a combine over the folder `dir`: files 0..n-1 are
      appended to the output and deleted in turn until one is missing.
      Returns the output, the files left and the index it stopped at (n when
      none was missing). */
  method CopyFiles(dir: map<string, Bytes>, prefix: string, n: nat)
    returns (output: Bytes, left: map<string, Bytes>, k: nat)
    ensures k == FirstMissing(dir, prefix, n)
    ensures output == Written(dir, prefix, k)
    ensures left == dir - Names(prefix, k)
  {
    output, left, k := [], dir, 0;
    assert left == dir - Names(prefix, 0);
    while k < n && Numbered(prefix, k) in left
      invariant k <= n
      invariant forall j: nat | j < k :: Numbered(prefix, j) in dir
      invariant output == Written(dir, prefix, k)
      invariant left == dir - Names(prefix, k)
    {
      var name := Numbered(prefix, k);
      assert name in dir && left[name] == dir[name];
      output := output + left[name];
      left := left - {name};
      assert left == dir - Names(prefix, k + 1);
      k := k + 1;
    }
    NamesHold(prefix, k, k);
    FirstMissingIs(dir, prefix, n, k);
  }
}
