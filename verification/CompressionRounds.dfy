/**
 * The shape of the SHA-256 computation, sections 6.2.1 and 6.2.2 of FIPS 180-4, over any word type:
 * schedule, rounds and chaining, with the word operations as a parameter.
 */
module CompressionRounds {

  datatype Ops<!Word> = Ops(
    add: (Word, Word) -> Word,
    sub: (Word, Word) -> Word,
    ch: (Word, Word, Word) -> Word,
    maj: (Word, Word, Word) -> Word,
    bigSigma0: Word -> Word,
    bigSigma1: Word -> Word,
    smallSigma0: Word -> Word,
    smallSigma1: Word -> Word)
  {
    /** Sum of four words, from the left. */
    function Add4(a: Word, b: Word, c: Word, d: Word): Word { add(add(add(a, b), c), d) }
  }

  /** Subtraction undoes addition. */
  ghost predicate Subtracts<Word(!new)>(o: Ops<Word>) {
    forall x, y :: o.sub(o.add(x, y), y) == x
  }

  /** Four terms may be added in the opposite order. */
  ghost predicate Reorders<Word(!new)>(o: Ops<Word>) {
    forall a, b, c, d :: o.Add4(a, b, c, d) == o.Add4(d, c, b, a)
  }

  lemma GroupReorders<Word(!new)>(o: Ops<Word>)
    requires forall x, y :: o.add(x, y) == o.add(y, x)
    requires forall x, y, z :: o.add(o.add(x, y), z) == o.add(x, o.add(y, z))
    ensures Reorders(o)
  {
    forall a, b, c, d ensures o.Add4(a, b, c, d) == o.Add4(d, c, b, a) {
      calc {
        o.add(o.add(o.add(a, b), c), d);
        o.add(d, o.add(o.add(a, b), c));
        o.add(d, o.add(c, o.add(a, b)));
        o.add(o.add(d, c), o.add(b, a));
        o.add(o.add(o.add(d, c), b), a);
      }
    }
  }

  // ---------- Message schedule ----------

  /** The schedule equation for a block of sixteen words. */
  function W<Word>(o: Ops<Word>, block: seq<Word>, t: nat): Word
    requires |block| == 16
  {
    if t < 16 then block[t]
    else o.Add4(o.smallSigma1(W(o, block, t - 2)), W(o, block, t - 7),
                o.smallSigma0(W(o, block, t - 15)), W(o, block, t - 16))
  }

  /** The schedule filled in place; the four terms are added in the opposite order. */
  method Schedule<Word(0, !new)>(o: Ops<Word>, block: seq<Word>) returns (w: array<Word>)
    requires |block| == 16 && Reorders(o)
    ensures fresh(w) && w.Length == 64 && forall t | 0 <= t < 64 :: w[t] == W(o, block, t)
    ensures w[..16] == block
    ensures forall t | 16 <= t < 64 ::
              w[t] == o.Add4(o.smallSigma1(w[t - 2]), w[t - 7], o.smallSigma0(w[t - 15]), w[t - 16])
  {
    w := new Word[64];
    for i := 0 to 16
      invariant forall t | 0 <= t < i :: w[t] == W(o, block, t)
    {
      w[i] := block[i];
    }
    for i := 16 to 64
      invariant forall t | 0 <= t < i :: w[t] == W(o, block, t)
    {
      w[i] := o.Add4(w[i - 16], o.smallSigma0(w[i - 15]), w[i - 7], o.smallSigma1(w[i - 2]));
    }
  }

  // ---------- Rounds ----------

  datatype Registers<Word> = Registers(a: Word, b: Word, c: Word, d: Word, e: Word, f: Word, g: Word, h: Word)

  function Temp1<Word>(o: Ops<Word>, r: Registers<Word>, k: Word, w: Word): Word {
    o.add(o.Add4(r.h, o.bigSigma1(r.e), o.ch(r.e, r.f, r.g), k), w)
  }

  function Temp2<Word>(o: Ops<Word>, r: Registers<Word>): Word { o.add(o.bigSigma0(r.a), o.maj(r.a, r.b, r.c)) }

  function Round<Word>(o: Ops<Word>, r: Registers<Word>, k: Word, w: Word): Registers<Word> {
    var t1 := Temp1(o, r, k, w);
    Registers(o.add(t1, Temp2(o, r)), r.a, r.b, r.c, o.add(r.d, t1), r.e, r.f, r.g)
  }

  function Rounds<Word>(o: Ops<Word>, r: Registers<Word>, ks: seq<Word>, ws: seq<Word>, n: nat): Registers<Word>
    requires n <= |ks| && n <= |ws|
  {
    if n == 0 then r else Round(o, Rounds(o, r, ks, ws, n - 1), ks[n - 1], ws[n - 1])
  }

  /** The rounds as performed: eight variables, shifted along in each round. */
  method RunRounds<Word>(o: Ops<Word>, r: Registers<Word>, ks: seq<Word>, w: array<Word>) returns (out: Registers<Word>)
    requires |ks| == 64 && w.Length == 64
    ensures out == Rounds(o, r, ks, w[..], 64)
  {
    var a, b, c, d, e, f, g, h := r.a, r.b, r.c, r.d, r.e, r.f, r.g, r.h;
    for i := 0 to 64
      invariant Registers(a, b, c, d, e, f, g, h) == Rounds(o, r, ks, w[..], i)
    {
      var s1 := o.bigSigma1(e);
      var ch := o.ch(e, f, g);
      var temp1 := o.add(o.Add4(h, s1, ch, ks[i]), w[i]);
      var s0 := o.bigSigma0(a);
      var maj := o.maj(a, b, c);
      var temp2 := o.add(s0, maj);
      h := g;
      g := f;
      f := e;
      e := o.add(d, temp1);
      d := c;
      c := b;
      b := a;
      a := o.add(temp1, temp2);
    }
    out := Registers(a, b, c, d, e, f, g, h);
  }

  // ---------- The rounds without rotation ----------

  /** Every value the first and the fifth register take, oldest first. */
  datatype Trace<Word> = Trace(first: seq<Word>, fifth: seq<Word>)

  /**
   * The same rounds as two growing lists that are only ever read: a round appends one value to
   * each, computed from the last four of both. The other six registers are where the lists begin.
   */
  function Unrolled<Word>(o: Ops<Word>, r: Registers<Word>, ks: seq<Word>, ws: seq<Word>, n: nat): (t: Trace<Word>)
    requires n <= |ks| && n <= |ws|
    ensures |t.first| == |t.fifth| == n + 4
  {
    if n == 0 then Trace([r.d, r.c, r.b, r.a], [r.h, r.g, r.f, r.e])
    else
      var t := Unrolled(o, r, ks, ws, n - 1);
      var (a, e) := (t.first, t.fifth);
      var t1 := o.add(o.Add4(e[n - 1], o.bigSigma1(e[n + 2]), o.ch(e[n + 2], e[n + 1], e[n]), ks[n - 1]), ws[n - 1]);
      var t2 := o.add(o.bigSigma0(a[n + 2]), o.maj(a[n + 2], a[n + 1], a[n]));
      Trace(a + [o.add(t1, t2)], e + [o.add(a[n - 1], t1)])
  }

  /** The last four values of each list. */
  function LastFour<Word>(t: Trace<Word>): Registers<Word>
    requires |t.first| == |t.fifth| >= 4
  {
    var n := |t.first| - 4;
    Registers(t.first[n + 3], t.first[n + 2], t.first[n + 1], t.first[n],
              t.fifth[n + 3], t.fifth[n + 2], t.fifth[n + 1], t.fifth[n])
  }

  /** After any number of rounds the rotating registers are the ends of the two lists. */
  lemma {:induction false} RotationIsDelay<Word>(o: Ops<Word>, r: Registers<Word>, ks: seq<Word>, ws: seq<Word>, n: nat)
    requires n <= |ks| && n <= |ws|
    ensures Rounds(o, r, ks, ws, n) == LastFour(Unrolled(o, r, ks, ws, n))
  {
    if n > 0 {
      RotationIsDelay(o, r, ks, ws, n - 1);
    }
  }

  // ---------- Rounds can be undone ----------

  function Unround<Word>(o: Ops<Word>, r: Registers<Word>, k: Word, w: Word): Registers<Word> {
    var t1 := o.sub(r.a, o.add(o.bigSigma0(r.b), o.maj(r.b, r.c, r.d)));
    var h := o.sub(o.sub(o.sub(o.sub(t1, w), k), o.ch(r.f, r.g, r.h)), o.bigSigma1(r.f));
    Registers(r.b, r.c, r.d, o.sub(r.e, t1), r.f, r.g, r.h, h)
  }

  lemma UnroundUndoesRound<Word(!new)>(o: Ops<Word>, r: Registers<Word>, k: Word, w: Word)
    requires Subtracts(o)
    ensures Unround(o, Round(o, r, k, w), k, w) == r
  {
  }

  function Unrounds<Word>(o: Ops<Word>, r: Registers<Word>, ks: seq<Word>, ws: seq<Word>, n: nat): Registers<Word>
    requires n <= |ks| && n <= |ws|
    decreases n
  {
    if n == 0 then r else Unrounds(o, Unround(o, r, ks[n - 1], ws[n - 1]), ks, ws, n - 1)
  }

  ghost predicate StepsBack<Word(!new)>(o: Ops<Word>, r: Registers<Word>, ks: seq<Word>, ws: seq<Word>, i: nat)
    requires 0 < i <= |ks| && i <= |ws|
  {
    Unround(o, Rounds(o, r, ks, ws, i), ks[i - 1], ws[i - 1]) == Rounds(o, r, ks, ws, i - 1)
  }

  lemma {:induction false} StepsBackToStart<Word(!new)>(
    o: Ops<Word>, r: Registers<Word>, ks: seq<Word>, ws: seq<Word>, n: nat)
    requires n <= |ks| && n <= |ws| && forall i | 0 < i <= n :: StepsBack(o, r, ks, ws, i)
    ensures Unrounds(o, Rounds(o, r, ks, ws, n), ks, ws, n) == r
    decreases n
  {
    if n > 0 {
      assert StepsBack(o, r, ks, ws, n);
      StepsBackToStart(o, r, ks, ws, n - 1);
    }
  }

  /** For a fixed block the rounds can be run backwards, so they never merge two starting states. */
  lemma UnroundsUndoRounds<Word(!new)>(o: Ops<Word>, r: Registers<Word>, ks: seq<Word>, ws: seq<Word>, n: nat)
    requires Subtracts(o) && n <= |ks| && n <= |ws|
    ensures Unrounds(o, Rounds(o, r, ks, ws, n), ks, ws, n) == r
  {
    forall i | 0 < i <= n ensures StepsBack(o, r, ks, ws, i) {
      UnroundUndoesRound(o, Rounds(o, r, ks, ws, i - 1), ks[i - 1], ws[i - 1]);
    }
    StepsBackToStart(o, r, ks, ws, n);
  }

  // ---------- Chaining ----------

  /** Adding the working registers back, step 4 of section 6.2.2. */
  function AddRegisters<Word>(o: Ops<Word>, h: Registers<Word>, r: Registers<Word>): Registers<Word> {
    Registers(o.add(h.a, r.a), o.add(h.b, r.b), o.add(h.c, r.c), o.add(h.d, r.d),
              o.add(h.e, r.e), o.add(h.f, r.f), o.add(h.g, r.g), o.add(h.h, r.h))
  }

  function Listed<Word>(r: Registers<Word>): seq<Word> { [r.a, r.b, r.c, r.d, r.e, r.f, r.g, r.h] }

  lemma AddsPointwise<Word>(o: Ops<Word>, h: Registers<Word>, r: Registers<Word>)
    ensures forall i | 0 <= i < 8 :: Listed(AddRegisters(o, h, r))[i] == o.add(Listed(h)[i], Listed(r)[i])
  {
  }

  /** The compression function, stated by the two lists and the schedule equation only. */
  function Compress<Word>(o: Ops<Word>, ks: seq<Word>, h: Registers<Word>, block: seq<Word>): Registers<Word>
    requires |ks| == 64 && |block| == 16
  {
    var ws := seq(64, t requires 0 <= t => W(o, block, t));
    AddRegisters(o, h, LastFour(Unrolled(o, h, ks, ws, 64)))
  }

  function Chain<Word>(o: Ops<Word>, ks: seq<Word>, h: Registers<Word>, blocks: seq<seq<Word>>): Registers<Word>
    requires |ks| == 64 && forall i | 0 <= i < |blocks| :: |blocks[i]| == 16
  {
    if blocks == [] then h
    else Compress(o, ks, Chain(o, ks, h, blocks[..|blocks| - 1]), blocks[|blocks| - 1])
  }

  /** One block, as performed. */
  method CompressBlock<Word(0, !new)>(o: Ops<Word>, ks: seq<Word>, h: Registers<Word>, block: seq<Word>)
    returns (out: Registers<Word>)
    requires |ks| == 64 && |block| == 16 && Reorders(o)
    ensures out == Compress(o, ks, h, block)
  {
    var w := Schedule(o, block);
    var r := RunRounds(o, h, ks, w);
    ghost var ws := seq(64, t requires 0 <= t => W(o, block, t));
    assert w[..] == ws;
    RotationIsDelay(o, h, ks, ws, 64);
    out := AddRegisters(o, h, r);
  }
}
