// Conversion by a CCL program does not depend on how the input is cut into pieces.

module CclPieces {
  import opened Bytes
  import opened CclMachine

  /** The call comes to an end, with this result. */
  ghost predicate Gives(prog: seq<nat>, m: Machine, src: seq<nat>, end: bool, room: Room, r: Result)
    requires Program(prog) && m.Ok()
  {
    !r.Running? && exists k: nat :: Exec(prog, m, src, end, room, k) == r
  }

  lemma GivesOne(prog: seq<nat>, m: Machine, src: seq<nat>, end: bool, room: Room, r: Result, r': Result)
    requires Program(prog) && m.Ok() && Gives(prog, m, src, end, room, r) && Gives(prog, m, src, end, room, r')
    ensures r == r'
  {
    hide Exec;
    var k: nat :| Exec(prog, m, src, end, room, k) == r;
    var j: nat :| Exec(prog, m, src, end, room, j) == r';
    if k <= j { Steady(prog, m, src, end, room, k, j); } else { Steady(prog, m, src, end, room, j, k); }
  }

  lemma GivesAnywhere(prog: seq<nat>, m: Machine, src: seq<nat>, end: bool, room: Room, r: Result)
    requires Program(prog) && m.Ok() && Gives(prog, m, src, end, room, r) && !r.Full?
    ensures Gives(prog, m, src, end, NoLimit, r)
  {
    hide Exec;
    var k: nat :| Exec(prog, m, src, end, room, k) == r;
    NotFull(prog, m, src, end, room, k);
  }

  // ---- programs end as long as input may still come ----

  /** Every instruction that takes no input goes forward. */
  lemma Forward(prog: seq<nat>, m: Machine, src: seq<nat>)
    requires Program(prog) && m.Ok()
    ensures var r := Step(prog, m, src, false);
      r.Act? && r.kind == Goes && r.used == 0 ==> m.ip < r.m.ip
  {
    hide Binary, Unary, Flushed;
  }

  /** Before the end of input is announced a call ends after at most this many instructions. */
  function Enough(prog: seq<nat>, m: Machine, src: seq<nat>): nat {
    |src| * (|prog| + 1) + (if m.ip < |prog| then |prog| - m.ip else 0) + 1
  }

  lemma {:induction false} EndsWithoutEof(prog: seq<nat>, m: Machine, src: seq<nat>, room: Room)
    requires Program(prog) && m.Ok()
    ensures !Exec(prog, m, src, false, room, Enough(prog, m, src)).Running?
    decreases |src|, |prog| - m.ip
  {
    var r := Step(prog, m, src, false);
    Forward(prog, m, src);
    var n := Enough(prog, m, src) - 1;
    ExecOne(prog, m, src, false, room, n);
    hide Step, Exec, Overfull;
    if r.Act? && r.kind == Goes && !Overfull(prog, m, r.out, room) {
      var rest, room1 := src[r.used..], Less(room, |r.out|);
      Fewer(prog, m, src, r);
      hide Enough;
      EndsWithoutEof(prog, r.m, rest, room1);
      Steady(prog, r.m, rest, false, room1, Enough(prog, r.m, rest), n);
    }
  }

  /** A call that stops with its first instruction, or one whose rest ends, ends. */
  lemma ExecOne(prog: seq<nat>, m: Machine, src: seq<nat>, end: bool, room: Room, k: nat)
    requires Program(prog) && m.Ok()
    ensures var r := Step(prog, m, src, end);
      Exec(prog, m, src, end, room, k + 1).Running? ==>
        (r.Act? && r.kind == Goes && !Overfull(prog, m, r.out, room)
         && Exec(prog, r.m, src[r.used..], end, Less(room, |r.out|), k).Running?)
  {
    hide Step, Overfull;
  }

  lemma Fewer(prog: seq<nat>, m: Machine, src: seq<nat>, r: Action)
    requires r.Act? && r.used <= |src| && m.ip < |prog| && (r.used == 0 ==> m.ip < r.m.ip)
    ensures Enough(prog, r.m, src[r.used..]) < Enough(prog, m, src)
  {
    if r.used > 0 {
      FewerTimes(|src| - r.used, |src|, |prog| + 1);
    }
  }

  lemma FewerTimes(b: nat, a: nat, n: nat)
    requires b < a
    ensures b * n + n <= a * n
  {
    var c := a - b - 1;
    assert a == b + 1 + c;
    calc {
      a * n;
      (b + 1 + c) * n;
      b * n + n + c * n;
    }
    assert c * n >= 0;
  }

  /** After that nothing makes it end: where the code for the end of input begins with RESTART or READ, the
      program goes there over and over again. */
  lemma {:induction false} EofLoops(prog: seq<nat>, m: Machine, k: nat)
    requires Program(prog) && m.Ok() && m.ip == EofStart(prog) < |prog| && prog[m.ip] in {RESTART, READ}
    ensures Exec(prog, m, [], true, NoLimit, k).Running?
    decreases k
  {
    if k > 0 {
      var r := Step(prog, m, [], true);
      EofLoops(prog, r.m, k - 1);
      var none: seq<nat> := [];
      assert none[0..] == none;
    }
  }

  /** The same from the beginning of a last call: a program that has read all its input goes to such code. */
  lemma {:induction false} EofLoopsFrom(prog: seq<nat>, m: Machine, src: seq<nat>, k: nat, j: nat)
    requires Program(prog) && m.Ok() && EofStart(prog) < |prog| && prog[EofStart(prog)] in {RESTART, READ}
    requires Exec(prog, m, src, false, NoLimit, k).Waiting?
    ensures Exec(prog, m, src, true, NoLimit, j).Running?
    decreases k
  {
    hide Step, Exec, After, EofStart;
    ToEof(prog, m, src);
    Unfold(prog, m, src, false, k);
    Unfold(prog, m, src, true, j);
    var r, e := Step(prog, m, src, false), Step(prog, m, src, true);
    if j > 0 && r.Act? && r.kind == Waits {
      assert src[0..] == [];
      EofLoops(prog, e.m, j - 1);
      StillRunning(e.out, Exec(prog, e.m, src[0..], true, NoLimit, j - 1));
    } else if j > 0 && r.Act? && r.kind == Goes {
      WaitingAfter(r.out, Exec(prog, r.m, src[r.used..], false, NoLimit, k - 1));
      EofLoopsFrom(prog, r.m, src[r.used..], k - 1, j - 1);
      StillRunning(r.out, Exec(prog, r.m, src[r.used..], true, NoLimit, j - 1));
    }
  }

  /** The announcement that the input ends matters only where the program would wait. */
  lemma ToEof(prog: seq<nat>, m: Machine, src: seq<nat>)
    requires Program(prog) && m.Ok()
    ensures var r, e := Step(prog, m, src, false), Step(prog, m, src, true);
      if r.Act? && r.kind == Waits
      then src == [] && e.Act? && e.kind == Goes && e.used == 0 && e.m.ip == EofStart(prog)
      else e == r
  {
    hide Simple, Flushed;
  }

  /** The code for the end of input reads nothing and does not start over. */
  predicate EofCodePlain(prog: seq<nat>)
    requires Program(prog)
  {
    forall i :: EofStart(prog) <= i < |prog| ==> prog[i] != RESTART && prog[i] != READ
  }

  /** A last call of such a program ends after at most this many instructions. */
  function EnoughAtEnd(prog: seq<nat>, m: Machine, src: seq<nat>): nat
    requires Program(prog)
  {
    Enough(prog, m, src) + (if m.ip < EofStart(prog) then |prog| + 1 else 0)
  }

  /** Every instruction takes input, goes forward, or goes to the code for the end of input from before it. */
  lemma ForwardAtEnd(prog: seq<nat>, m: Machine, src: seq<nat>)
    requires Program(prog) && m.Ok() && EofCodePlain(prog)
    ensures var r := Step(prog, m, src, true);
      r.Act? && r.kind == Goes ==>
        if r.used == 0 then m.ip < r.m.ip || (m.ip < EofStart(prog) == r.m.ip) else m.ip < EofStart(prog)
  {
    Forward(prog, m, src);
    ToEof(prog, m, src);
    hide Simple, Flushed;
  }

  lemma {:induction false} EndsAtEof(prog: seq<nat>, m: Machine, src: seq<nat>, room: Room)
    requires Program(prog) && m.Ok() && EofCodePlain(prog)
    ensures !Exec(prog, m, src, true, room, EnoughAtEnd(prog, m, src)).Running?
    decreases |src|, m.ip < EofStart(prog), |prog| - m.ip
  {
    var r := Step(prog, m, src, true);
    ForwardAtEnd(prog, m, src);
    var n := EnoughAtEnd(prog, m, src) - 1;
    ExecOne(prog, m, src, true, room, n);
    hide Step, Exec, Overfull, EofCodePlain;
    if r.Act? && r.kind == Goes && !Overfull(prog, m, r.out, room) {
      var rest, room1 := src[r.used..], Less(room, |r.out|);
      FewerAtEnd(prog, m, src, r);
      hide Enough, EnoughAtEnd;
      EndsAtEof(prog, r.m, rest, room1);
      Steady(prog, r.m, rest, true, room1, EnoughAtEnd(prog, r.m, rest), n);
    }
  }

  lemma FewerAtEnd(prog: seq<nat>, m: Machine, src: seq<nat>, r: Action)
    requires Program(prog) && r.Act? && r.used <= |src| && m.ip < |prog|
    requires if r.used == 0 then m.ip < r.m.ip || (m.ip < EofStart(prog) == r.m.ip) else m.ip < EofStart(prog)
    ensures EnoughAtEnd(prog, r.m, src[r.used..]) < EnoughAtEnd(prog, m, src)
  {
    hide EofStart;
    if r.used > 0 {
      FewerTimes(|src| - r.used, |src|, |prog| + 1);
    }
  }

  // ---- where a waiting program is ----

  /** A waiting program waits at the RESTART in front of its main code or at a READ of that code, so the saved
      place is never 0, which would mean that the program has not begun. */
  lemma {:induction false} WaitsAt(prog: seq<nat>, m: Machine, src: seq<nat>, room: Room, k: nat)
    requires Program(prog) && m.Ok() && START <= m.ip && Exec(prog, m, src, false, room, k).Waiting?
    ensures var w := Exec(prog, m, src, false, room, k).m;
      START <= w.ip < |prog| && (w.ip == START || prog[w.ip] == READ) && w.Ok()
    decreases k
  {
    var r := Step(prog, m, src, false);
    Forward(prog, m, src);
    Landing(prog, m, src);
    hide Step, Overfull;
    if r.kind == Goes {
      WaitsAt(prog, r.m, src[r.used..], Less(room, |r.out|), k - 1);
    }
  }

  lemma Landing(prog: seq<nat>, m: Machine, src: seq<nat>)
    requires Program(prog) && m.Ok() && START <= m.ip
    ensures var r := Step(prog, m, src, false);
      && (r.Act? && r.used != 0 ==> START <= r.m.ip)
      && (r.Act? && r.kind == Waits ==> r.m.ip == START || (r.m.ip == m.ip && prog[m.ip] == READ))
  {
    hide Simple, Flushed;
  }

  // ---- pieces ----

  /** Two calls give what one call with both pieces gives, and they do come to an end when that does. */
  lemma TwoPieces(prog: seq<nat>, m: Machine, x: seq<nat>, y: seq<nat>, end: bool, w: Result)
    requires Program(prog) && m.Ok() && prog[START] == RESTART && y != []
    requires Gives(prog, m, x, false, NoLimit, w) && w.Waiting?
    ensures w.m.Ok()
    ensures forall r :: Gives(prog, w.m, y, end, NoLimit, r) ==> Gives(prog, m, x + y, end, NoLimit, After(w.out, r))
    ensures forall r :: Gives(prog, m, x + y, end, NoLimit, r) ==>
                          exists r' :: Gives(prog, w.m, y, end, NoLimit, r') && r == After(w.out, r')
  {
    hide Exec;
    var k: nat :| Exec(prog, m, x, false, NoLimit, k) == w;
    Resume(prog, m, x, y, end, k, 0);
    forall r | Gives(prog, w.m, y, end, NoLimit, r) ensures Gives(prog, m, x + y, end, NoLimit, After(w.out, r)) {
      Onward(prog, m, x, y, end, k, w, r);
    }
    forall r | Gives(prog, m, x + y, end, NoLimit, r)
      ensures exists r' :: Gives(prog, w.m, y, end, NoLimit, r') && r == After(w.out, r')
    {
      var j: nat :| Exec(prog, m, x + y, end, NoLimit, j) == r;
      Resume(prog, m, x, y, end, k, j);
      var r' := Exec(prog, w.m, y, end, NoLimit, j);
      assert Gives(prog, w.m, y, end, NoLimit, r');
      Onward(prog, m, x, y, end, k, w, r');
      GivesOne(prog, m, x + y, end, NoLimit, r, After(w.out, r'));
    }
  }

  lemma Onward(prog: seq<nat>, m: Machine, x: seq<nat>, y: seq<nat>, end: bool, k: nat, w: Result, r: Result)
    requires Program(prog) && m.Ok() && prog[START] == RESTART && y != []
    requires Exec(prog, m, x, false, NoLimit, k) == w && w.Waiting? && w.m.Ok() && Gives(prog, w.m, y, end, NoLimit, r)
    ensures Gives(prog, m, x + y, end, NoLimit, After(w.out, r))
  {
    hide Exec;
    var j: nat :| Exec(prog, w.m, y, end, NoLimit, j) == r;
    Resume(prog, m, x, y, end, k, j);
    assert !After(w.out, r).Running?;
  }

  /** One call for each piece, each with a buffer of its own, the last one told that the input ends.  No call
      but the last lets the program end. */
  ghost predicate Session(prog: seq<nat>, m: Machine, pieces: seq<seq<nat>>, rooms: seq<Room>, r: Result)
    requires Program(prog) && m.Ok() && 0 < |pieces| == |rooms|
    decreases |pieces|
  {
    if |pieces| == 1 then Gives(prog, m, pieces[0], true, rooms[0], r)
    else exists w: Result, more: Result ::
      && Gives(prog, m, pieces[0], false, rooms[0], w) && w.Waiting? && w.m.Ok()
      && Session(prog, w.m, pieces[1..], rooms[1..], more) && r == After(w.out, more)
  }

  /** The calls together put out what a single call would, whatever the sizes of the buffers, as long as none
      of them fills up. */
  lemma {:induction false} PiecesAgree(prog: seq<nat>, m: Machine, pieces: seq<seq<nat>>, rooms: seq<Room>, r: Result)
    requires Program(prog) && m.Ok() && prog[START] == RESTART && 0 < |pieces| == |rooms|
    requires forall i :: 0 <= i < |pieces| ==> pieces[i] != []
    requires Session(prog, m, pieces, rooms, r) && !r.Full?
    ensures Gives(prog, m, Concat(pieces), true, NoLimit, r)
    ensures forall room, whole :: Gives(prog, m, Concat(pieces), true, room, whole) && !whole.Full? ==> whole == r
    decreases |pieces|
  {
    hide Gives;
    if |pieces| == 1 {
      assert Concat(pieces) == pieces[0] + Concat([]) == pieces[0];
      GivesAnywhere(prog, m, pieces[0], true, rooms[0], r);
    } else {
      var w: Result, more: Result :|
        && Gives(prog, m, pieces[0], false, rooms[0], w) && w.Waiting? && w.m.Ok()
        && Session(prog, w.m, pieces[1..], rooms[1..], more) && r == After(w.out, more);
      GivesAnywhere(prog, m, pieces[0], false, rooms[0], w);
      PiecesAgree(prog, w.m, pieces[1..], rooms[1..], more);
      assert Concat(pieces[1..]) != [] by { assert pieces[1..][0] != []; }
      TwoPieces(prog, m, pieces[0], Concat(pieces[1..]), true, w);
    }
    forall room, whole | Gives(prog, m, Concat(pieces), true, room, whole) && !whole.Full? ensures whole == r {
      GivesAnywhere(prog, m, Concat(pieces), true, room, whole);
      GivesOne(prog, m, Concat(pieces), true, NoLimit, whole, r);
    }
  }
}
