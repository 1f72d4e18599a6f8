/**
 The block interleaver program: loading the permutation file in either direction, permuting
 the bits of each block, and the loop over the whole input file.
 */
module Interleaver {
  import opened Bits
  import opened BytePacking

  const MAX_INTERLEAVER := 10000

  datatype LoadResult = Loaded(size: nat) | TooBig | NotWholeBytes

  /** Every entry of the table indexes a bit of a block as long as the table. */
  ghost predicate IsTable(t: seq<int>) {
    forall i :: 0 <= i < |t| ==> 0 <= t[i] < |t|
  }

  ghost predicate Injective(t: seq<int>) {
    forall i, j :: 0 <= i < j < |t| ==> t[i] != t[j]
  }

  ghost predicate Inverse(t: seq<int>, u: seq<int>) {
    |t| == |u| && IsTable(t) && IsTable(u) &&
    forall i :: 0 <= i < |t| ==> u[t[i]] == i
  }

  /** Takes bit t[i] to place i. */
  function Permute(bits: seq<Bit>, t: seq<int>): (r: seq<Bit>)
    requires |bits| == |t| && IsTable(t)
    ensures |r| == |t|
  {
    seq(|t|, i requires 0 <= i < |t| => bits[t[i]])
  }

  /** One block: unpack, permute, pack. */
  function Scramble(block: seq<Byte>, t: seq<int>): (r: seq<Byte>)
    requires |t| == 8 * |block| && IsTable(t)
    ensures |r| == |block|
  {
    BytesOf(Permute(BitsOf(block), t))
  }

  /** The whole file: every complete block is scrambled, a trailing partial block is dropped. */
  function ScrambleFile(input: seq<Byte>, t: seq<int>, n: nat): seq<Byte>
    requires 0 < n && |t| == 8 * n && IsTable(t)
  {
    if |input| < n then [] else Scramble(input[..n], t) + ScrambleFile(input[n..], t, n)
  }

  /** Bit i of a scrambled block is bit t[i] of the block. */
  lemma BlockBits(block: seq<Byte>, t: seq<int>, i: nat)
    requires |t| == 8 * |block| && IsTable(t) && i < |t|
    ensures BitsOf(Scramble(block, t))[i] == BitsOf(block)[t[i]]
  {
    BitsOfBytes(Permute(BitsOf(block), t));
  }

  /** The output has the whole blocks of the input, and in each of them bit i is bit t[i] of that block of the input. */
  ghost predicate FileBits(input: seq<Byte>, output: seq<Byte>, t: seq<int>, n: nat)
    requires 0 < n && |t| == 8 * n && IsTable(t)
  {
    |output| == Kept(|input|, n) && forall p :: IsBlock(p, n, |output|) ==> BlockMoved(input, output, t, n, p)
  }

  /** p is where a block of n bytes starts. */
  ghost predicate IsBlock(p: nat, n: nat, len: nat)
    requires n > 0
  {
    p % n == 0 && p + n <= len
  }

  ghost predicate BlockMoved(input: seq<Byte>, output: seq<Byte>, t: seq<int>, n: nat, p: nat)
    requires |t| == 8 * n && IsTable(t)
  {
    p + n <= |input| && p + n <= |output| &&
    forall i :: 0 <= i < |t| ==> BitsOf(output[p..p + n])[i] == BitsOf(input[p..p + n])[t[i]]
  }

  lemma {:induction false} ScrambledBits(input: seq<Byte>, t: seq<int>, n: nat)
    requires 0 < n && |t| == 8 * n && IsTable(t)
    ensures FileBits(input, ScrambleFile(input, t, n), t, n)
    decreases |input|
  {
    if |input| >= n {
      var output, rest, later := ScrambleFile(input, t, n), input[n..], ScrambleFile(input[n..], t, n);
      ScrambledBits(rest, t, n);
      forall p | IsBlock(p, n, |output|) ensures BlockMoved(input, output, t, n, p) {
        if p == 0 {
          FirstMoved(input, output, t, n);
        } else {
          BlockBefore(p, n, |output|);
          LaterMoved(input, rest, output, later, t, n, p);
        }
      }
    }
  }

  lemma FirstMoved(input: seq<Byte>, output: seq<Byte>, t: seq<int>, n: nat)
    requires 0 < n <= |input| && |t| == 8 * n && IsTable(t) && n <= |output| && output[..n] == Scramble(input[..n], t)
    ensures BlockMoved(input, output, t, n, 0)
  {
    forall i | 0 <= i < |t| ensures BitsOf(output[0..0 + n])[i] == BitsOf(input[0..0 + n])[t[i]] {
      BlockBits(input[..n], t, i);
    }
  }

  lemma BlockBefore(p: nat, n: nat, len: nat)
    requires n > 0 && p > 0 && IsBlock(p, n, len)
    ensures p >= n && IsBlock(p - n, n, len - n)
  {
    if p < n { ModUnique(p, n, 0, p); }
    DropOne(p, n);
  }

  lemma LaterMoved(input: seq<Byte>, rest: seq<Byte>, output: seq<Byte>, later: seq<Byte>, t: seq<int>, n: nat, p: nat)
    requires n <= p && n <= |input| && rest == input[n..] && |output| == n + |later| && output[n..] == later
    requires |t| == 8 * n && IsTable(t) && BlockMoved(rest, later, t, n, p - n)
    ensures BlockMoved(input, output, t, n, p)
  {
    var q := p - n;
    assert input[p..p + n] == rest[q..q + n] && output[p..p + n] == later[q..q + n];
  }

  // ---- the program

  /** Reads the interleaver file; `de` is the optional fifth argument. */
  method LoadInterleaver(entries: seq<int>, de: bool, table: array<int>) returns (r: LoadResult)
    requires table.Length == MAX_INTERLEAVER
    requires forall i :: 0 <= i < |entries| ==> 0 <= entries[i] < MAX_INTERLEAVER
    modifies table
    ensures r == if |entries| >= MAX_INTERLEAVER then TooBig
                 else if |entries| % 8 != 0 then NotWholeBytes else Loaded(|entries|)
    ensures r.Loaded? && !de ==> table[..r.size] == entries
    ensures r.Loaded? && de ==> forall s :: 0 <= s < r.size ==>
      0 <= table[entries[s]] < r.size && entries[table[entries[s]]] == entries[s]
    ensures r.Loaded? && de && IsTable(entries) && Injective(entries) ==> Inverse(entries, table[..r.size])
  {
    var src := 0;
    while src < |entries|
      invariant 0 <= src <= |entries| && src < MAX_INTERLEAVER
      invariant !de ==> forall i :: 0 <= i < src ==> table[i] == entries[i]
      invariant de ==> forall s :: 0 <= s < src ==>
        0 <= table[entries[s]] < src && entries[table[entries[s]]] == entries[s]
    {
      var dest := entries[src];
      if de {
        table[dest] := src;
      } else {
        table[src] := dest;
      }
      src := src + 1;
      if src == MAX_INTERLEAVER {
        return TooBig;
      }
    }
    if src % 8 != 0 {
      return NotWholeBytes;
    }
    r := Loaded(src);
    if de && IsTable(entries) && Injective(entries) {
      InverseIsTable(entries, table[..src]);
    }
  }

  /** One iteration of the main loop, in place on packed_bits. */
  method ProcessBlock(packed: array<Byte>, bits: array<Bit>, interleaved: array<Bit>, t: seq<int>)
    requires bits.Length == interleaved.Length == |t| == 8 * packed.Length
    requires bits != interleaved && IsTable(t)
    modifies packed, bits, interleaved
    ensures packed[..] == Scramble(old(packed[..]), t)
    ensures forall i :: 0 <= i < |t| ==> BitsOf(packed[..])[i] == BitsOf(old(packed[..]))[t[i]]
  {
    Unpack(packed, bits);
    for i := 0 to |t|
      invariant bits[..] == BitsOf(old(packed[..])) && packed[..] == old(packed[..])
      invariant forall j :: 0 <= j < i ==> interleaved[j] == bits[t[j]]
    {
      interleaved[i] := bits[t[i]];
    }
    assert interleaved[..] == Permute(BitsOf(old(packed[..])), t);
    Pack(interleaved, packed);
    BitsOfBytes(interleaved[..]);
    SameBytes(packed[..], BytesOf(interleaved[..]));
    forall i | 0 <= i < |t| ensures BitsOf(packed[..])[i] == BitsOf(old(packed[..]))[t[i]] {
      BlockBits(old(packed[..]), t, i);
    }
  }

  /** fread() of one block. */
  method Load(packed: array<Byte>, input: seq<Byte>, pos: nat)
    requires pos + packed.Length <= |input|
    modifies packed
    ensures packed[..] == input[pos..pos + packed.Length]
  {
    for j := 0 to packed.Length
      invariant packed[..j] == input[pos..pos + j]
    {
      packed[j] := input[pos + j];
    }
  }

  /** The program after loading its table. */
  method Run(input: seq<Byte>, t: seq<int>, mpacked: nat) returns (output: seq<Byte>)
    requires 0 < |t| == 8 * mpacked && IsTable(t)
    ensures output == ScrambleFile(input, t, mpacked)
    ensures FileBits(input, output, t, mpacked)
  {
    output := ProcessFile(input, t, mpacked);
    ScrambledBits(input, t, mpacked);
  }

  /** Reads one block, scrambles it and returns what is written. */
  method NextBlock(packed: array<Byte>, bits: array<Bit>, interleaved: array<Bit>, input: seq<Byte>, pos: nat, t: seq<int>)
    returns (block: seq<Byte>)
    requires pos + packed.Length <= |input| && bits.Length == interleaved.Length == |t| == 8 * packed.Length && IsTable(t)
    requires bits != interleaved
    modifies packed, bits, interleaved
    ensures block == Scramble(input[pos..pos + packed.Length], t)
  {
    Load(packed, input, pos);
    ProcessBlock(packed, bits, interleaved, t);
    block := packed[..];
  }

  /** The main loop: one block at a time until a read comes up short. */
  method ProcessFile(input: seq<Byte>, t: seq<int>, mpacked: nat) returns (output: seq<Byte>)
    requires 0 < |t| == 8 * mpacked && IsTable(t)
    ensures output == ScrambleFile(input, t, mpacked)
  {
    var packed, bits, interleaved := new Byte[mpacked], new Bit[|t|], new Bit[|t|];
    var pos := 0;
    output := [];
    while pos + mpacked <= |input|
      invariant 0 <= pos <= |input|
      invariant output + ScrambleFile(input[pos..], t, mpacked) == ScrambleFile(input, t, mpacked)
      decreases |input| - pos
    {
      FileStep(output, input, pos, t, mpacked);
      var block := NextBlock(packed, bits, interleaved, input, pos, t);
      output := output + block;
      pos := pos + mpacked;
    }
    assert ScrambleFile(input[pos..], t, mpacked) == [];
  }

  // ---- interleaving is undone by the table loaded with "de", and only by that

  /** A table read with "de" from a permutation of the bit positions is a permutation too. */
  lemma InverseIsTable(t: seq<int>, u: seq<int>)
    requires |t| == |u| && IsTable(t) && Injective(t)
    requires forall s :: 0 <= s < |t| ==> 0 <= u[t[s]] < |t| && t[u[t[s]]] == t[s]
    ensures Inverse(t, u)
  {
    forall d | 0 <= d < |u| ensures 0 <= u[d] < |u| {
      var s := PreimageOf(t, d);
    }
    forall i | 0 <= i < |t| ensures u[t[i]] == i {
      var k := u[t[i]];
      assert t[k] == t[i];
    }
  }

  function Entries(t: seq<int>): (r: set<int>)
    ensures forall x :: x in r <==> x in t
  {
    set x | x in t
  }

  lemma {:induction false} EntriesCount(t: seq<int>)
    requires Injective(t)
    ensures |Entries(t)| == |t|
  {
    if t != [] {
      var init, last := t[..|t| - 1], t[|t| - 1];
      EntriesCount(init);
      assert t == init + [last];
      assert Entries(t) == Entries(init) + {last};
      assert last !in Entries(init);
    }
  }

  ghost function Below(n: nat): (r: set<int>)
    ensures forall x :: x in r <==> 0 <= x < n
    ensures |r| == n
  {
    if n == 0 then {} else Below(n - 1) + {n - 1}
  }

  /** An injective table reaches every position. */
  lemma Reaches(t: seq<int>, d: int)
    requires IsTable(t) && Injective(t) && 0 <= d < |t|
    ensures d in t
  {
    if d !in t {
      var all := Below(|t|);
      EntriesCount(t);
      assert Entries(t) <= all - {d};
      assert |all - {d}| == |t| - 1;
      SubsetCount(Entries(t), all - {d});
      assert false;
    }
  }

  lemma {:induction false} SubsetCount<T>(a: set<T>, b: set<T>)
    requires a <= b
    ensures |a| <= |b|
  {
    if a != {} {
      var x :| x in a;
      SubsetCount(a - {x}, b - {x});
    }
  }

  /** An inverse on one side is an inverse on the other. */
  lemma InverseSymmetric(t: seq<int>, u: seq<int>)
    requires Inverse(t, u)
    ensures Inverse(u, t)
  {
    assert Injective(t) by {
      forall i, j | 0 <= i < j < |t| ensures t[i] != t[j] {
        assert u[t[i]] == i && u[t[j]] == j;
      }
    }
    forall d | 0 <= d < |u| ensures t[u[d]] == d {
      var s := PreimageOf(t, d);
    }
  }

  lemma BlockRoundTrip(block: seq<Byte>, t: seq<int>, u: seq<int>)
    requires |t| == 8 * |block| && Inverse(t, u)
    ensures Scramble(Scramble(block, t), u) == block
  {
    InverseSymmetric(t, u);
    var bits := BitsOf(block);
    var inter := Permute(bits, t);
    BitsOfBytes(inter);
    assert Permute(inter, u) == bits by {
      forall d | 0 <= d < |u| ensures Permute(inter, u)[d] == bits[d] {
        assert t[u[d]] == d;
      }
    }
    BytesOfBits(block);
  }

  lemma FileCons(block: seq<Byte>, rest: seq<Byte>, t: seq<int>, n: nat)
    requires 0 < n == |block| && |t| == 8 * n && IsTable(t)
    ensures ScrambleFile(block + rest, t, n) == Scramble(block, t) + ScrambleFile(rest, t, n)
  {
    var all := block + rest;
    assert all[..n] == block && all[n..] == rest;
  }

  lemma FileStep(output: seq<Byte>, input: seq<Byte>, pos: nat, t: seq<int>, n: nat)
    requires 0 < n && pos + n <= |input| && |t| == 8 * n && IsTable(t)
    ensures output + ScrambleFile(input[pos..], t, n)
         == output + Scramble(input[pos..pos + n], t) + ScrambleFile(input[pos + n..], t, n)
  {
    assert input[pos..] == input[pos..pos + n] + input[pos + n..];
    FileCons(input[pos..pos + n], input[pos + n..], t, n);
  }

  /** Both programs in sequence restore every whole block and drop only the partial one. */
  lemma {:induction false} FileRoundTrip(input: seq<Byte>, t: seq<int>, u: seq<int>, n: nat)
    requires 0 < n && |t| == 8 * n && Inverse(t, u)
    ensures ScrambleFile(ScrambleFile(input, t, n), u, n) == input[..Kept(|input|, n)]
    decreases |input|
  {
    if |input| >= n {
      var first, rest := input[..n], input[n..];
      assert input == first + rest;
      calc {
        ScrambleFile(ScrambleFile(input, t, n), u, n);
        { FileCons(first, rest, t, n); }
        ScrambleFile(Scramble(first, t) + ScrambleFile(rest, t, n), u, n);
        { FileCons(Scramble(first, t), ScrambleFile(rest, t, n), u, n); }
        Scramble(Scramble(first, t), u) + ScrambleFile(ScrambleFile(rest, t, n), u, n);
        { BlockRoundTrip(first, t, u); FileRoundTrip(rest, t, u, n); }
        first + rest[..Kept(|rest|, n)];
        { Prefix(input, n, Kept(|rest|, n)); }
        input[..Kept(|input|, n)];
      }
    }
  }

  /** The length of the whole blocks in len bytes. */
  function Kept(len: nat, n: nat): (r: nat)
    requires n > 0
    ensures r <= len < r + n && r % n == 0
  {
    if len < n then 0 else var r := Kept(len - n, n); DropOne(n + r, n); n + r
  }

  lemma Prefix<T>(s: seq<T>, n: nat, k: nat)
    requires n + k <= |s|
    ensures s[..n] + s[n..][..k] == s[..n + k]
  {
  }

  lemma DropOne(x: nat, n: nat)
    requires 0 < n <= x
    ensures (x - n) % n == x % n
  {
    ModUnique(x - n, n, x / n - 1, x % n);
  }

  /** Exactly the injective tables can be undone by running the program with some other table. */
  lemma UndoableIffInjective(t: seq<int>)
    requires |t| > 0 && |t| % 8 == 0 && IsTable(t)
    ensures Injective(t) <==> exists u :: |u| == |t| && IsTable(u) && Undoes(t, u)
  {
    if Injective(t) {
      var u := seq(|t|, d requires 0 <= d < |t| => PreimageOf(t, d));
      InverseIsTable(t, u);
      forall block: seq<Byte> | |t| == 8 * |block| ensures Scramble(Scramble(block, t), u) == block {
        BlockRoundTrip(block, t, u);
      }
      assert Undoes(t, u);
    }
    if exists u :: |u| == |t| && IsTable(u) && Undoes(t, u) {
      var u :| |u| == |t| && IsTable(u) && Undoes(t, u);
      forall i, j | 0 <= i < j < |t| ensures t[i] != t[j] {
        if t[i] == t[j] {
          Collision(t, i, j, u);
          assert false;
        }
      }
    }
  }

  ghost predicate Undoes(t: seq<int>, u: seq<int>)
    requires |u| == |t| && IsTable(t) && IsTable(u)
  {
    forall block: seq<Byte> :: |t| == 8 * |block| ==> Scramble(Scramble(block, t), u) == block
  }

  ghost function PreimageOf(t: seq<int>, d: int): (s: int)
    requires IsTable(t) && Injective(t) && 0 <= d < |t|
    ensures 0 <= s < |t| && t[s] == d
  {
    Reaches(t, d);
    var w: int :| 0 <= w < |t| && t[w] == d;
    w
  }

  /** When two outputs read the same input bit, some input bit is never sent. */
  lemma Collision(t: seq<int>, i: nat, j: nat, u: seq<int>)
    requires |t| > 0 && |t| % 8 == 0 && IsTable(t)
    requires i < j < |t| && t[i] == t[j]
    requires |u| == |t| && IsTable(u)
    ensures !Undoes(t, u)
  {
    var d := Unreached(t, i, j);
    var zero := seq(|t|, k => 0 as Bit);
    var one := zero[d := 1];
    assert Permute(zero, t) == Permute(one, t) by {
      forall k | 0 <= k < |t| ensures Permute(zero, t)[k] == Permute(one, t)[k] { assert t[k] != d; }
    }
    var a, b := BytesOf(zero), BytesOf(one);
    BitsOfBytes(zero);
    BitsOfBytes(one);
    assert Scramble(a, t) == Scramble(b, t);
    assert BitsOf(a)[d] != BitsOf(b)[d];
    assert a != b;
  }

  /** A table with a repeated entry misses a position. */
  lemma Unreached(t: seq<int>, i: nat, j: nat) returns (d: nat)
    requires IsTable(t) && i < j < |t| && t[i] == t[j]
    ensures d < |t| && forall k :: 0 <= k < |t| ==> t[k] != d
  {
    var rest := t[..j] + t[j + 1..];
    var all := Below(|t|);
    assert Entries(t) <= Entries(rest) by {
      forall x | x in Entries(t) ensures x in Entries(rest) {
        var k :| 0 <= k < |t| && t[k] == x;
        var k' := if k < j then k else if k == j then i else k - 1;
        assert rest[k'] == x;
      }
    }
    SubsetCount(Entries(t), Entries(rest));
    EntriesAtMost(rest);
    if all <= Entries(t) {
      SubsetCount(all, Entries(t));
      assert false;
    }
    d :| d in all && d !in Entries(t);
  }

  lemma {:induction false} EntriesAtMost(t: seq<int>)
    ensures |Entries(t)| <= |t|
  {
    if t != [] {
      var init, last := t[..|t| - 1], t[|t| - 1];
      EntriesAtMost(init);
      assert t == init + [last];
      assert Entries(t) == Entries(init) + {last};
    }
  }
}
