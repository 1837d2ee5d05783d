/**
 * ProcXF86BigfontQueryFont: the glyph metrics of a font are sent without
 * duplicates, each distinct record once and then one index per character.
 */
module Bigfont {
  datatype CharInfo = CharInfo(leftSideBearing: int, rightSideBearing: int, characterWidth: int,
                               ascent: int, descent: int, attributes: int)

  /** An element of the index arrays. */
  type Card16 = x: nat | x <= 0xffff

  /** (CARD16)(-1), the end of a chain. */
  const END: Card16 := 0xffff

  // ---------- What the reply is for ----------

  /** The characters whose metrics occur at no earlier character. */
  function FirstOccurrences(infos: seq<CharInfo>): seq<nat> {
    if infos == [] then []
    else
      var rest := infos[..|infos| - 1];
      FirstOccurrences(rest) + if infos[|rest|] in rest then [] else [|rest|]
  }

  lemma {:induction false} FirstOccurrencesAre(infos: seq<CharInfo>, j: nat)
    ensures j in FirstOccurrences(infos) <==> j < |infos| && infos[j] !in infos[..j]
  {
    if infos != [] {
      var rest := infos[..|infos| - 1];
      FirstOccurrencesAre(rest, j);
      if j < |rest| {
        assert rest[..j] == infos[..j];
      }
    }
  }

  lemma {:induction false} FirstOccurrencesIncrease(infos: seq<CharInfo>, i: nat, k: nat)
    requires i < k < |FirstOccurrences(infos)|
    ensures FirstOccurrences(infos)[i] < FirstOccurrences(infos)[k]
  {
    var rest := infos[..|infos| - 1];
    if k < |FirstOccurrences(rest)| {
      FirstOccurrencesIncrease(rest, i, k);
    } else {
      FirstOccurrencesAre(rest, FirstOccurrences(rest)[i]);
    }
  }

  /** No shorter table of records would do: there are as many entries as distinct values. */
  lemma {:induction false} Minimal(infos: seq<CharInfo>)
    ensures |FirstOccurrences(infos)| == |set info | info in infos|
  {
    if infos != [] {
      var rest, last := infos[..|infos| - 1], infos[|infos| - 1];
      Minimal(rest);
      assert infos == rest + [last];
      assert (set info | info in infos) == (set info | info in rest) + {last};
      assert last in rest ==> (set info | info in infos) == (set info | info in rest);
    }
  }

  // ---------- Chains ----------

  /** `v` is the latest record in bucket `h`, or END when there is none; `buckets[i]` is the bucket of record `i`. */
  ghost predicate Latest(buckets: seq<nat>, h: nat, v: nat) {
    && (v == END || (v < |buckets| && buckets[v] == h))
    && forall k | 0 <= k < |buckets| && buckets[k] == h :: v != END && k <= v
  }

  /**
   * A hash table over the records: each bucket starts at its latest record and
   * each record links to the latest earlier one of its bucket.  So a record is
   * on exactly the chain of its hash, and chains strictly decrease.
   */
  ghost predicate Chained(buckets: seq<nat>, next: seq<Card16>, head: seq<Card16>) {
    && |next| == |buckets|
    && (forall h | 0 <= h < |head| :: Latest(buckets, h, head[h]))
    && (forall i | 0 <= i < |buckets| :: buckets[i] < |head| && Latest(buckets[..i], buckets[i], next[i]))
  }

  /** Putting a record at the front of its chain keeps the table, as long as its number is not END. */
  lemma ChainedAfterLink(buckets: seq<nat>, next: seq<Card16>, head: seq<Card16>, h: nat)
    requires Chained(buckets, next, head)
    requires |buckets| < END && h < |head|
    ensures Chained(buckets + [h], next + [head[h]], head[h := |buckets|])
  {
    var b := buckets + [h];
    forall i | 0 <= i < |b|
      ensures b[..i] == if i < |buckets| then buckets[..i] else buckets
    {}
  }

  /** Every element is an index below `n`. */
  ghost predicate Below(s: seq<Card16>, n: nat) {
    forall k | 0 <= k < |s| :: s[k] < n
  }

  /** A walk down a chain that has come to `i` has passed every later record of the bucket. */
  ghost predicate Passed(infos: seq<CharInfo>, uniq: seq<Card16>, buckets: seq<nat>, h: nat, i: nat, p: CharInfo)
    requires |uniq| == |buckets| && Below(uniq, |infos|)
  {
    && (i == END || (i < |buckets| && buckets[i] == h))
    && forall k | 0 <= k < |buckets| && buckets[k] == h && (i == END || i < k) :: infos[uniq[k]] != p
  }

  lemma PassedStep(infos: seq<CharInfo>, uniq: seq<Card16>, buckets: seq<nat>, next: seq<Card16>, head: seq<Card16>,
                   h: nat, i: nat, p: CharInfo)
    requires |uniq| == |buckets| && Below(uniq, |infos|)
    requires Chained(buckets, next, head)
    requires Passed(infos, uniq, buckets, h, i, p) && i != END && infos[uniq[i]] != p
    ensures Passed(infos, uniq, buckets, h, next[i], p)
    ensures next[i] == END || next[i] < i
  {
    forall k | 0 <= k < i
      ensures buckets[..i][k] == buckets[k]
    {}
  }

  // ---------- The four slices of one array ----------

  /** `len` elements of `t` from `from` on. */
  function Slice(t: seq<Card16>, from: nat, len: nat): (s: seq<Card16>)
    requires from + len <= |t|
    ensures |s| == len
  {
    t[from..from + len]
  }

  lemma SliceAt(t: seq<Card16>, from: nat, len: nat, k: nat)
    requires from + len <= |t| && k < len
    ensures Slice(t, from, len)[k] == t[from + k]
  {}

  /** The two halves of the output are the same in both states. */
  ghost predicate SameOutput(t: seq<Card16>, t': seq<Card16>, n: nat) {
    && |t| == |t'| == 4 * n + 1
    && forall k | 0 <= k < 2 * n :: t[k] == t'[k]
  }

  lemma SameSlice(t: seq<Card16>, t': seq<Card16>, n: nat, from: nat, len: nat)
    requires SameOutput(t, t', n) && from + len <= 2 * n
    ensures Slice(t, from, len) == Slice(t', from, len)
  {}

  /**
   * The output for the first characters: `uniq` are the characters whose records
   * are sent, and `indices[j]` is the number of the record of character `j`.
   */
  ghost predicate Output(infos: seq<CharInfo>, indices: seq<Card16>, uniq: seq<Card16>) {
    && |indices| <= |infos|
    && uniq == FirstOccurrences(infos[..|indices|])
    && Below(uniq, |indices|)
    && forall j | 0 <= j < |indices| :: indices[j] < |uniq| && infos[uniq[indices[j]]] == infos[j]
  }

  /** The buckets of the unique records when the table has `m` slots. */
  function Buckets(infos: seq<CharInfo>, hash: CharInfo -> nat, uniq: seq<Card16>, m: nat): (b: seq<nat>)
    requires m > 0 && Below(uniq, |infos|)
    ensures |b| == |uniq|
    ensures forall k | 0 <= k < |b| :: b[k] == hash(infos[uniq[k]]) % m
  {
    seq(|uniq|, k requires 0 <= k < |uniq| => hash(infos[uniq[k]]) % m)
  }

  /** A table over the records whose first characters are `uniq`. */
  ghost predicate Table(infos: seq<CharInfo>, hash: CharInfo -> nat, uniq: seq<Card16>, next: seq<Card16>, head: seq<Card16>) {
    && |head| > 0 && Below(uniq, |infos|)
    && Chained(Buckets(infos, hash, uniq, |head|), next, head)
  }

  /** The table with `m` slots in `tmp` holds the first `u` records. */
  ghost predicate TableIn(infos: seq<CharInfo>, hash: CharInfo -> nat, tmp: seq<Card16>, m: nat, u: nat) {
    var n := |infos|;
    && |tmp| == 4 * n + 1 && u <= n && m <= n + 1
    && Table(infos, hash, Slice(tmp, n, u), Slice(tmp, 2 * n, u), Slice(tmp, 3 * n, m))
  }

  lemma TableAfterLink(infos: seq<CharInfo>, hash: CharInfo -> nat, uniq: seq<Card16>, next: seq<Card16>, head: seq<Card16>, index: Card16)
    requires Table(infos, hash, uniq, next, head)
    requires index < |infos| && |uniq| < END
    ensures var h := hash(infos[index]) % |head|;
            Table(infos, hash, uniq + [index], next + [head[h]], head[h := |uniq|])
  {
    hide Chained;
    var h := hash(infos[index]) % |head|;
    assert Buckets(infos, hash, uniq + [index], |head|) == Buckets(infos, hash, uniq, |head|) + [h];
    ChainedAfterLink(Buckets(infos, hash, uniq, |head|), next, head, h);
  }

  lemma LinkSlices(t: seq<Card16>, n: nat, m: nat, u: nat, h: nat)
    requires |t| == 4 * n + 1 && m <= n + 1 && u < n && h < m && u <= 0xffff
    ensures var t' := t[2 * n + u := t[3 * n + h]][3 * n + h := u];
            && SameOutput(t, t', n)
            && Slice(t', 2 * n, u + 1) == Slice(t, 2 * n, u) + [Slice(t, 3 * n, m)[h]]
            && Slice(t', 3 * n, m) == Slice(t, 3 * n, m)[h := u]
  {
    var v, t1 := t[3 * n + h], t[2 * n + u := t[3 * n + h]];
    assert Slice(t1, 2 * n, u + 1) == Slice(t, 2 * n, u) + [v];
    assert Slice(t1[3 * n + h := u], 2 * n, u + 1) == Slice(t1, 2 * n, u + 1);
  }

  // ---------- The code ----------

  /** Marks the first `m` chains as empty. */
  method ClearHash(infos: seq<CharInfo>, hash: CharInfo -> nat, tmp: array<Card16>, m: nat)
    requires tmp.Length == 4 * |infos| + 1 && 0 < m <= |infos| + 1
    modifies tmp
    ensures SameOutput(old(tmp[..]), tmp[..], |infos|)
    ensures TableIn(infos, hash, tmp[..], m, 0)
  {
    var n := |infos|;
    for j := 0 to m
      invariant SameOutput(old(tmp[..]), tmp[..], n)
      invariant forall h | 3 * n <= h < 3 * n + j :: tmp[h] == END
    {
      tmp[3 * n + j] := END;
    }
  }

  /** No record is equal to `p`. */
  ghost predicate Unknown(infos: seq<CharInfo>, uniq: seq<Card16>, p: CharInfo)
    requires Below(uniq, |infos|)
  {
    forall k | 0 <= k < |uniq| :: infos[uniq[k]] != p
  }

  lemma StartWalk(infos: seq<CharInfo>, hash: CharInfo -> nat, uniq: seq<Card16>, next: seq<Card16>, head: seq<Card16>, p: CharInfo)
    requires Table(infos, hash, uniq, next, head)
    ensures var m := |head|;
            Passed(infos, uniq, Buckets(infos, hash, uniq, m), hash(p) % m, head[hash(p) % m], p)
  {}

  lemma EndWalk(infos: seq<CharInfo>, hash: CharInfo -> nat, uniq: seq<Card16>, m: nat, p: CharInfo)
    requires m > 0 && Below(uniq, |infos|)
    requires Passed(infos, uniq, Buckets(infos, hash, uniq, m), hash(p) % m, END, p)
    ensures Unknown(infos, uniq, p)
  {}

  lemma OnChain(infos: seq<CharInfo>, uniq: seq<Card16>, buckets: seq<nat>, h: nat, i: nat, p: CharInfo)
    requires |uniq| == |buckets| && Below(uniq, |infos|)
    requires Passed(infos, uniq, buckets, h, i, p) && i != END
    ensures i < |uniq| && uniq[i] < |infos|
  {}

  /** Walks the chain of `p`'s hash for a record equal to `p`. */
  method Lookup(infos: seq<CharInfo>, hash: CharInfo -> nat, tmp: array<Card16>, m: nat, ghost u: nat, p: CharInfo)
    returns (i: Card16)
    requires TableIn(infos, hash, tmp[..], m, u) && m > 0
    ensures i != END ==> i < u && tmp[|infos| + i] < |infos| && infos[tmp[|infos| + i]] == p
    ensures i == END ==> Unknown(infos, Slice(tmp[..], |infos|, u), p)
  {
    hide Chained, Passed, Unknown, Below, Buckets, Slice;
    var n := |infos|;
    ghost var t: seq<Card16> := tmp[..];
    ghost var uniq, next, head := Slice(t, n, u), Slice(t, 2 * n, u), Slice(t, 3 * n, m);
    ghost var buckets := Buckets(infos, hash, uniq, m);
    StartWalk(infos, hash, uniq, next, head, p);
    var hashCode := hash(p) % m;
    SliceAt(t, 3 * n, m, hashCode);
    i := tmp[3 * n + hashCode];
    while i != END
      invariant Passed(infos, uniq, buckets, hashCode, i, p)
      decreases if i == END then 0 else i + 1
    {
      OnChain(infos, uniq, buckets, hashCode, i, p);
      SliceAt(t, n, u, i);
      SliceAt(t, 2 * n, u, i);
      var j := tmp[n + i];
      if infos[j] == p {
        return;
      }
      PassedStep(infos, uniq, buckets, next, head, hashCode, i, p);
      i := tmp[2 * n + i];
    }
    EndWalk(infos, hash, uniq, m, p);
  }

  /** Puts record `u`, of character `index`, at the front of its chain. */
  method Link(infos: seq<CharInfo>, hash: CharInfo -> nat, tmp: array<Card16>, m: nat, u: Card16, hashCode: nat, ghost index: Card16)
    requires TableIn(infos, hash, tmp[..], m, u) && m > 0
    requires u < |infos| && index < |infos|
    requires hashCode == hash(infos[index]) % m
    modifies tmp
    ensures SameOutput(old(tmp[..]), tmp[..], |infos|)
    ensures u != END ==> Table(infos, hash, old(Slice(tmp[..], |infos|, u)) + [index],
                               Slice(tmp[..], 2 * |infos|, u + 1), Slice(tmp[..], 3 * |infos|, m))
  {
    hide Table, Slice;
    var n := |infos|;
    ghost var t: seq<Card16> := tmp[..];
    tmp[2 * n + u] := tmp[3 * n + hashCode];
    tmp[3 * n + hashCode] := u;
    assert tmp[..] == t[2 * n + u := t[3 * n + hashCode]][3 * n + hashCode := u];
    LinkSlices(t, n, m, u, hashCode);
    if u != END {
      TableAfterLink(infos, hash, Slice(t, n, u), Slice(t, 2 * n, u), Slice(t, 3 * n, m), index);
    }
  }

  lemma SliceSnoc(t: seq<Card16>, from: nat, len: nat)
    requires from + len < |t|
    ensures Slice(t, from, len + 1) == Slice(t, from, len) + [t[from + len]]
  {}

  lemma StillEmpty(infos: seq<CharInfo>, hash: CharInfo -> nat, t: seq<Card16>, t': seq<Card16>, m: nat)
    requires TableIn(infos, hash, t, m, 0) && m > 0
    requires |t'| == |t| && t'[3 * |infos|..] == t[3 * |infos|..]
    ensures TableIn(infos, hash, t', m, 0)
  {
    var n := |infos|;
    assert Slice(t', 3 * n, m) == t'[3 * n..][..m];
    assert Slice(t, 3 * n, m) == t[3 * n..][..m];
    assert Slice(t, n, 0) == Slice(t', n, 0) && Slice(t, 2 * n, 0) == Slice(t', 2 * n, 0);
  }

  /** Increases the table to `m` slots and enters the first `u` records again. */
  method Rehash(infos: seq<CharInfo>, hash: CharInfo -> nat, tmp: array<Card16>, m: nat, u: nat)
    requires tmp.Length == 4 * |infos| + 1 && 0 < m <= |infos| + 1 && u < |infos| && u <= END
    requires Below(Slice(tmp[..], |infos|, u), |infos|)
    modifies tmp
    ensures SameOutput(old(tmp[..]), tmp[..], |infos|)
    ensures TableIn(infos, hash, tmp[..], m, u)
  {
    hide Table, Slice;
    var n := |infos|;
    ClearHash(infos, hash, tmp, m);
    ghost var t: seq<Card16> := tmp[..];
    for i := 0 to u
      invariant SameOutput(t, tmp[..], n) && tmp[3 * n..] == t[3 * n..]
    {
      tmp[2 * n + i] := END;
    }
    StillEmpty(infos, hash, t, tmp[..], m);
    for i := 0 to u
      invariant SameOutput(old(tmp[..]), tmp[..], n)
      invariant TableIn(infos, hash, tmp[..], m, i)
    {
      SameSlice(old(tmp[..]), tmp[..], n, n, u);
      SliceAt(tmp[..], n, u, i);
      var j := tmp[n + i];
      var hashCode := hash(infos[j]) % m;
      ghost var before: seq<Card16> := tmp[..];
      Link(infos, hash, tmp, m, i, hashCode, j);
      SliceSnoc(before, n, i);
      SameSlice(before, tmp[..], n, n, i + 1);
    }
  }

  lemma UnknownMeans(infos: seq<CharInfo>, uniq: seq<Card16>, p: CharInfo, k: nat)
    requires Below(uniq, |infos|) && Unknown(infos, uniq, p) && k < |uniq|
    ensures infos[uniq[k]] != p
  {}

  /** The record of the next character is new: it becomes record `u`. */
  lemma NewRecord(infos: seq<CharInfo>, indices: seq<Card16>, uniq: seq<Card16>, next: Card16)
    requires Output(infos, indices, uniq) && next == |indices| < |infos| && |uniq| <= 0xffff
    requires Below(uniq, |infos|) && Unknown(infos, uniq, infos[next])
    ensures Output(infos, indices + [|uniq|], uniq + [next])
  {
    hide Unknown;
    assert infos[..next + 1][..next] == infos[..next];
    if infos[next] in infos[..next] {
      var j :| 0 <= j < next && infos[..next][j] == infos[next];
      UnknownMeans(infos, uniq, infos[next], indices[j]);
      assert false;
    }
  }

  lemma KnownRecord(infos: seq<CharInfo>, indices: seq<Card16>, uniq: seq<Card16>, next: Card16, i: Card16)
    requires Output(infos, indices, uniq) && next == |indices| < |infos|
    requires i < |uniq| && uniq[i] < |infos| && infos[uniq[i]] == infos[next]
    ensures Output(infos, indices + [i], uniq)
  {
    assert infos[..next + 1][..next] == infos[..next];
    assert infos[..next][uniq[i]] == infos[next];
  }

  lemma {:induction false} AtMostOnce(infos: seq<CharInfo>)
    ensures |FirstOccurrences(infos)| <= |infos|
  {
    if infos != [] {
      AtMostOnce(infos[..|infos| - 1]);
    }
  }

  lemma OutputFits(infos: seq<CharInfo>, indices: seq<Card16>, uniq: seq<Card16>)
    requires Output(infos, indices, uniq)
    ensures |uniq| <= |indices| && Below(uniq, |infos|)
  {
    AtMostOnce(infos[..|indices|]);
  }

  /** The output slices after entering character `next` as record `i`; a new record also writes its first character. */
  lemma OutputSlices(t: seq<Card16>, n: nat, next: Card16, u: nat, i: Card16, isNew: bool)
    requires |t| == 4 * n + 1 && next < n && u < n
    ensures var t' := (if isNew then t[n + u := next] else t)[next := i];
            && Slice(t', 0, next + 1) == Slice(t, 0, next) + [i]
            && Slice(t', n, u) == Slice(t, n, u)
            && (isNew ==> Slice(t', n, u + 1) == Slice(t, n, u) + [next])
            && (forall from: nat, len: nat | 2 * n <= from && from + len <= |t| :: Slice(t', from, len) == Slice(t, from, len))
  {}

  /** The state between characters. */
  ghost predicate Dedup(infos: seq<CharInfo>, hash: CharInfo -> nat, tmp: seq<Card16>, m: nat, next: nat, u: nat) {
    var n := |infos|;
    && |tmp| == 4 * n + 1 && u <= next <= n && 0 < m <= n + 1
    && Output(infos, Slice(tmp, 0, next), Slice(tmp, n, u))
    // END can become a record number only with the last character; then the table is no longer needed
    && (next < n ==> TableIn(infos, hash, tmp, m, u))
  }

  lemma TableEntries(infos: seq<CharInfo>, hash: CharInfo -> nat, tmp: seq<Card16>, m: nat, u: nat)
    requires TableIn(infos, hash, tmp, m, u)
    ensures Below(Slice(tmp, |infos|, u), |infos|)
  {}

  /** The record of character `next` is new; it is allocated, after the table has grown if it was too full. */
  method Allocate(infos: seq<CharInfo>, hash: CharInfo -> nat, tmp: array<Card16>, hashModulus: nat, next: Card16, u: Card16)
    returns (m: nat)
    requires |infos| <= 0x10000 && next < |infos| && Dedup(infos, hash, tmp[..], hashModulus, next, u)
    requires Unknown(infos, Slice(tmp[..], |infos|, u), infos[next])
    modifies tmp
    ensures Dedup(infos, hash, tmp[..], m, next + 1, u + 1)
  {
    hide Slice, Unknown, Output, Table;
    var n := |infos|;
    m := hashModulus;
    ghost var t0: seq<Card16> := tmp[..];
    OutputFits(infos, Slice(t0, 0, next), Slice(t0, n, u));
    TableEntries(infos, hash, t0, m, u);
    if m <= 2 * u && m < n + 1 {
      m := 2 * m + 1;
      if m > n + 1 {
        m := n + 1;
      }
      Rehash(infos, hash, tmp, m, u);
      SameSlice(t0, tmp[..], n, 0, next);
      SameSlice(t0, tmp[..], n, n, u);
    }
    var hashCode := hash(infos[next]) % m;
    ghost var t1: seq<Card16> := tmp[..];
    Link(infos, hash, tmp, m, u, hashCode, next);
    ghost var t2: seq<Card16> := tmp[..];
    SameSlice(t1, t2, n, 0, next);
    SameSlice(t1, t2, n, n, u);
    tmp[n + u] := next;
    tmp[next] := u;
    assert tmp[..] == t2[n + u := next][next := u];
    OutputSlices(t2, n, next, u, u, true);
    NewRecord(infos, Slice(t0, 0, next), Slice(t0, n, u), next);
    if next + 1 < n {
      assert TableIn(infos, hash, tmp[..], m, u + 1);
    }
  }

  lemma NothingEntered(infos: seq<CharInfo>, tmp: seq<Card16>)
    requires |tmp| == 4 * |infos| + 1
    ensures Output(infos, Slice(tmp, 0, 0), Slice(tmp, |infos|, 0))
  {}

  lemma KnownEntered(infos: seq<CharInfo>, hash: CharInfo -> nat, t: seq<Card16>, m: nat, next: Card16, u: nat, i: Card16)
    requires next < |infos| && Dedup(infos, hash, t, m, next, u)
    requires i < u && t[|infos| + i] < |infos| && infos[t[|infos| + i]] == infos[next]
    ensures Dedup(infos, hash, t[next := i], m, next + 1, u)
  {
    hide Slice, Output, Table;
    SliceAt(t, |infos|, u, i);
    OutputSlices(t, |infos|, next, u, i, false);
    KnownRecord(infos, Slice(t, 0, next), Slice(t, |infos|, u), next, i);
  }

  /** Removes the duplicates of up to 65536 records. */
  method RemoveDuplicates(infos: seq<CharInfo>, hash: CharInfo -> nat) returns (tmp: array<Card16>, nUniq: nat)
    requires 0 < |infos| <= 0x10000
    ensures tmp.Length == 4 * |infos| + 1 && nUniq <= |infos|
    ensures Output(infos, Slice(tmp[..], 0, |infos|), Slice(tmp[..], |infos|, nUniq))
  {
    hide Slice, Unknown, Output, TableIn;
    var n := |infos|;
    var m: nat := 67;
    if m > n + 1 {
      m := n + 1;
    }
    tmp := new Card16[4 * n + 1];
    ClearHash(infos, hash, tmp, m);
    nUniq := 0;
    NothingEntered(infos, tmp[..]);
    for next := 0 to n
      invariant Dedup(infos, hash, tmp[..], m, next, nUniq)
    {
      ghost var t: seq<Card16> := tmp[..];
      OutputFits(infos, Slice(t, 0, next), Slice(t, n, nUniq));
      var i := Lookup(infos, hash, tmp, m, nUniq, infos[next]);
      if i != END {
        tmp[next] := i;
        KnownEntered(infos, hash, t, m, next, nUniq, i);
      } else {
        m := Allocate(infos, hash, tmp, m, next, nUniq);
        nUniq := nUniq + 1;
      }
    }
  }

  /** The records of the characters in `uniq`. */
  ghost predicate RecordsOf(infos: seq<CharInfo>, uniq: seq<nat>, records: seq<CharInfo>) {
    && |records| == |uniq|
    && forall k | 0 <= k < |uniq| :: uniq[k] < |infos| && records[k] == infos[uniq[k]]
  }

  /** The tail of the reply: the unique records, then the index of the record of each character. */
  method WriteReply(infos: seq<CharInfo>, tmp: array<Card16>, nUniq: nat) returns (uniqInfos: seq<CharInfo>, indices: seq<Card16>)
    requires tmp.Length == 4 * |infos| + 1 && nUniq <= |infos|
    requires Below(Slice(tmp[..], |infos|, nUniq), |infos|)
    ensures indices == Slice(tmp[..], 0, |infos|)
    ensures RecordsOf(infos, Slice(tmp[..], |infos|, nUniq), uniqInfos)
  {
    hide Slice;
    var n := |infos|;
    uniqInfos, indices := [], [];
    ghost var uniq := Slice(tmp[..], n, nUniq);
    for i := 0 to nUniq
      invariant RecordsOf(infos, uniq[..i], uniqInfos)
    {
      SliceAt(tmp[..], n, nUniq, i);
      uniqInfos := uniqInfos + [infos[tmp[n + i]]];
    }
    for j := 0 to n
      invariant indices == Slice(tmp[..], 0, n)[..j]
    {
      SliceAt(tmp[..], 0, n, j);
      indices := indices + [tmp[j]];
    }
  }

  /** The client finds the metrics of every character. */
  ghost predicate Lossless(infos: seq<CharInfo>, uniqInfos: seq<CharInfo>, indices: seq<Card16>) {
    && |indices| == |infos|
    && forall j | 0 <= j < |infos| :: indices[j] < |uniqInfos| && uniqInfos[indices[j]] == infos[j]
  }

  /** The distinct values of `infos`, once each, in the order of first occurrence. */
  ghost predicate DistinctValues(infos: seq<CharInfo>, uniqInfos: seq<CharInfo>) {
    && |uniqInfos| == |set info | info in infos|
    && (forall i, k | 0 <= i < k < |uniqInfos| :: uniqInfos[i] != uniqInfos[k])
    && RecordsOf(infos, FirstOccurrences(infos), uniqInfos)
  }

  lemma Distinct(infos: seq<CharInfo>, uniq: seq<nat>)
    requires uniq == FirstOccurrences(infos)
    ensures forall k | 0 <= k < |uniq| :: uniq[k] < |infos|
    ensures forall i, k | 0 <= i < k < |uniq| :: infos[uniq[i]] != infos[uniq[k]]
  {
    forall k | 0 <= k < |uniq|
      ensures uniq[k] < |infos| && infos[uniq[k]] !in infos[..uniq[k]]
    {
      FirstOccurrencesAre(infos, uniq[k]);
    }
    forall i, k | 0 <= i < k < |uniq|
      ensures infos[uniq[i]] != infos[uniq[k]]
    {
      FirstOccurrencesIncrease(infos, i, k);
      assert infos[..uniq[k]][uniq[i]] == infos[uniq[i]];
    }
  }

  lemma ReplyIsGood(infos: seq<CharInfo>, indices: seq<Card16>, uniq: seq<Card16>, uniqInfos: seq<CharInfo>)
    requires |indices| == |infos| && Output(infos, indices, uniq) && RecordsOf(infos, uniq, uniqInfos)
    ensures Lossless(infos, uniqInfos, indices)
    ensures DistinctValues(infos, uniqInfos)
  {
    assert infos[..|infos|] == infos;
    Distinct(infos, uniq);
    Minimal(infos);
  }

  lemma NothingToSend(infos: seq<CharInfo>)
    requires infos == []
    ensures Lossless(infos, [], []) && DistinctValues(infos, [])
  {
    Minimal(infos);
  }

  method QueryFont(infos: seq<CharInfo>, hash: CharInfo -> nat) returns (uniqInfos: seq<CharInfo>, indices: seq<Card16>)
    requires |infos| <= 0x10000
    ensures Lossless(infos, uniqInfos, indices)
    ensures DistinctValues(infos, uniqInfos)
  {
    hide Slice, DistinctValues, Lossless, Output;
    if |infos| > 0 {
      var tmp, nUniq := RemoveDuplicates(infos, hash);
      OutputFits(infos, Slice(tmp[..], 0, |infos|), Slice(tmp[..], |infos|, nUniq));
      uniqInfos, indices := WriteReply(infos, tmp, nUniq);
      ReplyIsGood(infos, indices, Slice(tmp[..], |infos|, nUniq), uniqInfos);
    } else {
      uniqInfos, indices := [], [];
      assert infos == [] && infos[..0] == [];
      NothingToSend(infos);
    }
  }
}
