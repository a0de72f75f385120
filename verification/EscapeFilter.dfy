/** What a client does with the characters its user types: escape sequences at the start of a line are taken out and
    acted on, the rest goes through a queue to the writer.
*/
module EscapeFilter {

  const ESCAPE: char := '&'
  const OUTCHARSLEN := 1024

  predicate IsCrNl(c: char) {
    c == '\n' || c == '\r'
  }

  /** The characters that, after an escape, are acted on. */
  predicate IsCommand(c: char) {
    c == '.' || c == '?' || c == '#' || c == 'r' || c == 'R'
  }

  // ---------------------------------------------------------------------------------------------------------------
  // One character at a time, with the last two remembered.

  datatype Filter = Filter(before: char, last: char, out: seq<char>, commands: seq<char>) {
    /** An escape character has been seen at the start of a line and not yet passed on. */
    predicate Withholding() {
      IsCrNl(before) && last == ESCAPE
    }
  }

  function Start(): Filter {
    Filter('\r', '\r', [], [])
  }

  function Feed(s: Filter, c: char): Filter {
    var t := s.(before := s.last, last := c);
    if s.Withholding() then
      if IsCommand(c) then t.(commands := s.commands + [c]) else t.(out := s.out + [ESCAPE, c])
    else if c != ESCAPE || !IsCrNl(s.last) then t.(out := s.out + [c])
    else t
  }

  function FeedAll(s: Filter, input: seq<char>): Filter
    decreases |input|
  {
    if input == [] then s else FeedAll(Feed(s, input[0]), input[1..])
  }

  /** It does not matter where the input is cut into reads. */
  lemma {:induction false} FeedSplit(s: Filter, a: seq<char>, b: seq<char>)
    ensures FeedAll(FeedAll(s, a), b) == FeedAll(s, a + b)
    decreases |a|
  {
    if a == [] {
      assert a + b == b;
    } else {
      FeedSplit(Feed(s, a[0]), a[1..], b);
      assert (a + b)[1..] == a[1..] + b;
    }
  }

  /** n characters in make at most n characters out, and one more if an escape had been withheld. */
  lemma {:induction false} FeedBound(s: Filter, input: seq<char>)
    ensures var t := FeedAll(s, input);
            |t.out| + (if t.Withholding() then 1 else 0) <= |s.out| + |input| + (if s.Withholding() then 1 else 0)
    ensures s.out <= FeedAll(s, input).out
    decreases |input|
  {
    if input != [] {
      FeedBound(Feed(s, input[0]), input[1..]);
    }
  }

  // ---------------------------------------------------------------------------------------------------------------
  // What that amounts to, by positions of the whole input.

  /** An escape character at the start of the input or right after a line end. */
  predicate Escape(input: seq<char>, i: int) {
    0 <= i < |input| && input[i] == ESCAPE && (i == 0 || IsCrNl(input[i - 1]))
  }

  /** Position i is the escape or the letter of a recognised command. */
  predicate InCommand(input: seq<char>, i: int)
    requires 0 <= i < |input|
  {
    (Escape(input, i) && i + 1 < |input| && IsCommand(input[i + 1])) || (Escape(input, i - 1) && IsCommand(input[i]))
  }

  /** The first k characters without those of recognised commands and without an escape that ends the input. */
  function Without(input: seq<char>, k: nat): seq<char>
    requires k <= |input|
  {
    if k == 0 then []
    else
      Without(input, k - 1) +
      (if InCommand(input, k - 1) || (k == |input| && Escape(input, k - 1)) then [] else [input[k - 1]])
  }

  /** The letters of the recognised commands among the first k characters. */
  function Letters(input: seq<char>, k: nat): seq<char>
    requires k <= |input|
  {
    if k == 0 then []
    else Letters(input, k - 1) + (if Escape(input, k - 2) && IsCommand(input[k - 1]) then [input[k - 1]] else [])
  }

  /** Up to the last character it does not matter what follows. */
  lemma {:induction false} WithoutStable(input: seq<char>, c: char, k: nat)
    requires k < |input|
    ensures Without(input + [c], k) == Without(input, k)
  {
    if k > 0 {
      WithoutStable(input, c, k - 1);
      assert (input + [c])[k] == input[k];
    }
  }

  lemma {:induction false} LettersStable(input: seq<char>, c: char, k: nat)
    requires k <= |input|
    ensures Letters(input + [c], k) == Letters(input, k)
  {
    if k > 0 {
      LettersStable(input, c, k - 1);
    }
  }

  /** The output is the input with exactly the recognised commands taken out, but for an escape at the end of the input
      that starts a line, which is withheld; and the commands acted on are exactly those, in order. */
  lemma {:induction false} FilterMeaning(input: seq<char>)
    ensures var s := FeedAll(Start(), input);
            var n := |input|;
            && s.out == Without(input, n)
            && s.commands == Letters(input, n)
            && s.last == (if n == 0 then '\r' else input[n - 1])
            && s.before == (if n <= 1 then '\r' else input[n - 2])
            && (s.Withholding() <==> Escape(input, n - 1))
    decreases |input|
  {
    if input != [] {
      var n := |input| - 1;
      var a, c := input[..n], input[n];
      assert a + [c] == input;
      FilterMeaning(a);
      FeedSplit(Start(), a, [c]);
      var s := FeedAll(Start(), a);
      assert FeedAll(s, [c]) == Feed(s, c);
      LettersStable(a, c, n);
      if n > 0 {
        WithoutStable(a, c, n - 1);
        assert Without(a, n) ==
               Without(a, n - 1) + (if InCommand(a, n - 1) || Escape(a, n - 1) then [] else [a[n - 1]]);
        assert Without(input, n) == Without(a, n - 1) + (if InCommand(input, n - 1) then [] else [a[n - 1]]);
      }
    }
  }

  lemma {:induction false} NothingTakenOut(input: seq<char>, k: nat)
    requires k <= |input| && forall i :: 0 <= i < |input| ==> !Escape(input, i)
    ensures Without(input, k) == input[..k] && Letters(input, k) == []
  {
    if k > 0 {
      NothingTakenOut(input, k - 1);
    }
  }

  /** An input without a line-start escape passes the filter unchanged, and nothing is acted on. */
  lemma PlainTextUnchanged(input: seq<char>)
    requires forall i :: 0 <= i < |input| ==> !Escape(input, i)
    ensures FeedAll(Start(), input).out == input && FeedAll(Start(), input).commands == []
  {
    FilterMeaning(input);
    NothingTakenOut(input, |input|);
  }

  /** The five commands and the two line ends; and what becomes of each at the start of a line, after an escape there,
      and in the middle of a line. */
  lemma CommandsAre(c: char)
    ensures IsCommand(c) <==> c in ['.', '?', '#', 'r', 'R']
    ensures IsCrNl(c) <==> c in ['\n', '\r']
    ensures var s := FeedAll(Start(), ['&', c]);
            if c in ['.', '?', '#', 'r', 'R'] then s.out == [] && s.commands == [c]
            else s.out == ['&', c] && s.commands == []
    ensures FeedAll(Start(), [c, '&', '.']).out ==
            if c in ['\n', '\r'] then [c] else if c == '&' then ['&', '&', '.'] else [c, '&', '.']
  {
    FeedThree(Start(), c, '&', '.');
    FeedTwo(Start(), '&', c);
  }

  lemma FeedTwo(s: Filter, a: char, b: char)
    ensures FeedAll(s, [a, b]) == Feed(Feed(s, a), b)
  {
    assert [a, b][1..] == [b] && [b][1..] == [];
    assert FeedAll(Feed(s, a), [b]) == FeedAll(Feed(Feed(s, a), b), []);
  }

  lemma FeedThree(s: Filter, a: char, b: char, c: char)
    ensures FeedAll(s, [a, b, c]) == Feed(Feed(Feed(s, a), b), c)
  {
    assert [a, b, c][1..] == [b, c];
    FeedTwo(Feed(s, a), b, c);
  }

  // ---------------------------------------------------------------------------------------------------------------
  // The queue between the reader and the writer.

  class OutChars {
    const outchars: array<char>
    var len: nat
    /** Everything put in, and everything taken out. */
    ghost var accepted: seq<char>
    ghost var taken: seq<char>

    ghost predicate Valid()
      reads this, outchars
    {
      && outchars.Length == OUTCHARSLEN && len <= OUTCHARSLEN
      && accepted == taken + outchars[..len]
    }

    constructor ()
      ensures Valid() && len == 0 && accepted == taken == [] && fresh(outchars)
    {
      outchars := new char[OUTCHARSLEN];
      len, accepted, taken := 0, [], [];
    }

    /** signal_outchars: as many as fit; the count of those. */
    method Signal(chars: seq<char>) returns (count: nat)
      requires Valid()
      modifies this`len, this`accepted, outchars
      ensures Valid()
      ensures count == if |chars| <= OUTCHARSLEN - old(len) then |chars| else OUTCHARSLEN - old(len)
      ensures accepted == old(accepted) + chars[..count] && len == old(len) + count
    {
      count := 0;
      while len < OUTCHARSLEN && count < |chars|
        invariant count <= |chars| && len == old(len) + count
        invariant Valid() && accepted == old(accepted) + chars[..count]
      {
        outchars[len] := chars[count];
        accepted := accepted + [chars[count]];
        len := len + 1;
        count := count + 1;
      }
    }

    /** waitfor_outchars, after the wait: up to `max` from the front, the rest moved down. */
    method WaitFor(max: nat) returns (chars: seq<char>)
      requires Valid()
      modifies this`len, this`taken, outchars
      ensures Valid() && accepted == old(accepted)
      ensures taken == old(taken) + chars
      ensures |chars| == if old(len) <= max then old(len) else max
    {
      var count := if len <= max then len else max;
      chars := outchars[..count];
      ghost var rest := outchars[count..len];
      assert outchars[..len] == chars + rest;
      forall i | 0 <= i < len - count {
        outchars[i] := outchars[i + count];
      }
      len := len - count;
      taken := taken + chars;
      assert outchars[..len] == rest;
    }
  }

  class TtyReader {
    var before: char
    var last: char
    const outbuf: array<char>
    var commands: seq<char>
    /** Everything read, and everything the filter passed on. */
    ghost var input: seq<char>
    ghost var output: seq<char>

    ghost predicate Valid()
      reads this
    {
      && outbuf.Length == 8
      && FeedAll(Start(), input) == Filter(before, last, output, commands)
    }

    constructor ()
      ensures Valid() && input == [] && fresh(outbuf)
    {
      before, last, commands, input, output := '\r', '\r', [], [], [];
      outbuf := new char[8];
    }

    /** One read of up to four characters: at most five come out, so the buffer of eight is never overrun. */
    method Chunk(buf: seq<char>) returns (j: nat)
      requires Valid() && |buf| <= 4
      modifies this, outbuf
      ensures Valid() && input == old(input) + buf
      ensures j <= |buf| + 1 && output == old(output) + outbuf[..j]
    {
      ghost var s := FeedAll(Start(), input);
      ghost var now := s;
      var i := 0;
      j := 0;
      while i < |buf|
        invariant i <= |buf| && j <= 8 && input == old(input)
        invariant now == FeedAll(s, buf[..i]) && now == Filter(before, last, s.out + outbuf[..j], commands)
      {
        FeedOne(s, buf, i);
        FeedBound(s, buf[..i + 1]);
        now := Feed(now, buf[i]);
        if IsCrNl(before) && last == ESCAPE {
          if IsCommand(buf[i]) {
            commands := commands + [buf[i]];
          } else {
            outbuf[j] := ESCAPE;
            outbuf[j + 1] := buf[i];
            j := j + 2;
          }
        } else if buf[i] != ESCAPE || !IsCrNl(last) {
          outbuf[j] := buf[i];
          j := j + 1;
        }
        before := last;
        last := buf[i];
        i := i + 1;
      }
      assert buf[..i] == buf;
      FeedBound(s, buf);
      FeedSplit(Start(), input, buf);
      input := input + buf;
      output := s.out + outbuf[..j];
    }

    /** One round of the loop of tty_reader. Of what the filter passes on the queue takes the first `count` characters;
        before that the writer thread takes up to `take`. */
    method Round(buf: seq<char>, take: nat, queue: OutChars)
        returns (dropped: nat, ghost passed: seq<char>, ghost count: nat)
      requires Valid() && queue.Valid() && queue.outchars != outbuf && |buf| <= 4
      modifies this, outbuf, queue, queue.outchars
      ensures Valid() && queue.Valid() && input == old(input) + buf && output == old(output) + passed
      ensures count <= |passed| && dropped == |passed| - count
      ensures queue.accepted == old(queue.accepted) + passed[..count]
      ensures var left := if old(queue.len) <= take then 0 else old(queue.len) - take;
              && left <= OUTCHARSLEN
              && count == (if |passed| <= OUTCHARSLEN - left then |passed| else OUTCHARSLEN - left)
              && queue.len == left + count
    {
      var j := Chunk(buf);
      passed := outbuf[..j];
      var written := queue.WaitFor(take);
      var taken := queue.Signal(outbuf[..j]);
      dropped, count := j - taken, taken;
    }

    /** tty_reader for the given reads: what reaches the queue is what the whole input filters to, however it was cut,
        but for the characters that did not fit, whose number is returned. Between any two reads the writer thread may
        have taken any number of characters, takes[k] before the k-th signal, and that decides which characters fit.
        */
    method Run(pieces: seq<seq<char>>, takes: seq<nat>, queue: OutChars) returns (dropped: nat)
      requires Valid() && queue.Valid() && input == [] && queue.outchars != outbuf
      requires |takes| == |pieces| && forall k :: 0 <= k < |pieces| ==> 0 < |pieces[k]| <= 4
      modifies this, outbuf, queue, queue.outchars
      ensures Valid() && queue.Valid() && input == Concat(pieces)
      ensures |queue.accepted| + dropped == |old(queue.accepted)| + |Without(input, |input|)|
      ensures old(queue.accepted) <= queue.accepted
      ensures queue.accepted == old(queue.accepted) + Kept(Start(), pieces, takes, old(queue.len))
      ensures Within(Kept(Start(), pieces, takes, old(queue.len)), Without(input, |input|))
      ensures dropped == 0 ==> queue.accepted == old(queue.accepted) + Without(input, |input|)
      ensures commands == Letters(input, |input|)
    {
      ghost var kept;
      dropped, kept := Rounds(pieces, takes, queue);
      assert pieces[..|pieces|] == pieces;
      FilterMeaning(input);
    }

    method RoundOn(pieces: seq<seq<char>>, takes: seq<nat>, k: nat, queue: OutChars, dropped: nat,
                   ghost first: seq<char>, ghost kept: seq<char>, ghost all: seq<char>)
        returns (dropped': nat, ghost kept': seq<char>)
      requires Valid() && queue.Valid() && queue.outchars != outbuf && k < |pieces| == |takes| && |pieces[k]| <= 4
      requires queue.accepted == first + kept && Progress(pieces, k, input, output, kept, dropped)
      requires KeptSoFar(pieces, takes, k, input, kept, queue.len, all)
      modifies this, outbuf, queue, queue.outchars
      ensures Valid() && queue.Valid() && queue.accepted == first + kept'
      ensures Progress(pieces, k + 1, input, output, kept', dropped')
      ensures KeptSoFar(pieces, takes, k + 1, input, kept', queue.len, all)
    {
      var lost, passed, count := Round(pieces[k], takes[k], queue);
      ProgressStep(pieces, k, old(input), old(output), kept, dropped, passed, count);
      KeptStep(pieces, takes, k, old(input), kept, old(queue.len), all, passed, count);
      Grouped(first, kept, passed[..count]);
      dropped', kept' := dropped + lost, kept + passed[..count];
    }

    /** The loop. */
    method Rounds(pieces: seq<seq<char>>, takes: seq<nat>, queue: OutChars)
        returns (dropped: nat, ghost kept: seq<char>)
      requires Valid() && queue.Valid() && input == [] && queue.outchars != outbuf
      requires |takes| == |pieces| && forall k :: 0 <= k < |pieces| ==> 0 < |pieces[k]| <= 4
      modifies this, outbuf, queue, queue.outchars
      ensures Valid() && queue.Valid() && queue.accepted == old(queue.accepted) + kept
      ensures Progress(pieces, |pieces|, input, output, kept, dropped)
      ensures kept == Kept(Start(), pieces, takes, old(queue.len))
    {
      dropped, kept := 0, [];
      var k := 0;
      ghost var first, all := queue.accepted, Kept(Start(), pieces, takes, queue.len);
      assert pieces[0..] == pieces && takes[0..] == takes;
      while k < |pieces|
        invariant Valid() && queue.Valid() && queue.accepted == first + kept
        invariant Progress(pieces, k, input, output, kept, dropped)
        invariant KeptSoFar(pieces, takes, k, input, kept, queue.len, all)
      {
        dropped, kept := RoundOn(pieces, takes, k, queue, dropped, first, kept, all);
        k := k + 1;
      }
      KeptEnd(pieces, takes, input, kept, queue.len, all);
    }
  }

  /** After k rounds: what has been read and passed on, and what of that has been accepted. */
  ghost predicate Progress(pieces: seq<seq<char>>, k: nat, input: seq<char>, output: seq<char>, kept: seq<char>,
                           dropped: nat)
  {
    && k <= |pieces|
    && input == Concat(pieces[..k]) && output == FeedAll(Start(), input).out
    && Within(kept, output) && |kept| + dropped == |output| && (dropped == 0 ==> kept == output)
  }

  /** And that this is what fits of everything. */
  ghost predicate KeptSoFar(pieces: seq<seq<char>>, takes: seq<nat>, k: nat, input: seq<char>, kept: seq<char>,
                            now: nat, all: seq<char>)
  {
    && k <= |pieces| == |takes| && now <= OUTCHARSLEN
    && all == kept + Kept(FeedAll(Start(), input), pieces[k..], takes[k..], now)
  }

  lemma KeptStep(pieces: seq<seq<char>>, takes: seq<nat>, k: nat, input: seq<char>, kept: seq<char>, now: nat,
                 all: seq<char>, passed: seq<char>, n: nat)
    requires KeptSoFar(pieces, takes, k, input, kept, now, all) && k < |pieces|
    requires FeedAll(Start(), input + pieces[k]).out == FeedAll(Start(), input).out + passed
    requires var left := if now <= takes[k] then 0 else now - takes[k];
             n == if |passed| <= OUTCHARSLEN - left then |passed| else OUTCHARSLEN - left
    ensures var left := if now <= takes[k] then 0 else now - takes[k];
            KeptSoFar(pieces, takes, k + 1, input + pieces[k], kept + passed[..n], left + n, all)
  {
    FeedSplit(Start(), input, pieces[k]);
    KeptNext(FeedAll(Start(), input), pieces, takes, k, now, passed, n, kept, all);
  }

  lemma KeptEnd(pieces: seq<seq<char>>, takes: seq<nat>, input: seq<char>, kept: seq<char>, now: nat, all: seq<char>)
    requires KeptSoFar(pieces, takes, |pieces|, input, kept, now, all)
    ensures kept == all
  {
  }

  lemma ProgressStep(pieces: seq<seq<char>>, k: nat, input: seq<char>, output: seq<char>, kept: seq<char>, dropped: nat,
                     passed: seq<char>, n: nat)
    requires Progress(pieces, k, input, output, kept, dropped) && k < |pieces| && n <= |passed|
    requires FeedAll(Start(), input + pieces[k]).out == output + passed
    ensures Progress(pieces, k + 1, input + pieces[k], output + passed, kept + passed[..n], dropped + |passed| - n)
  {
    ConcatNext(pieces, k);
    WithinMore(kept, output, passed, n);
  }

  lemma FeedOne(s: Filter, buf: seq<char>, i: nat)
    requires i < |buf|
    ensures FeedAll(s, buf[..i + 1]) == Feed(FeedAll(s, buf[..i]), buf[i])
  {
    assert buf[..i + 1] == buf[..i] + [buf[i]];
    FeedSplit(s, buf[..i], [buf[i]]);
    var t := FeedAll(s, buf[..i]);
    assert FeedAll(t, [buf[i]]) == FeedAll(Feed(t, buf[i]), []);
  }

  /** The characters that fit: in each round, after the writer has taken up to takes[0], the front of what the filter
      passes on, as much as there is room for. */
  function Kept(s: Filter, pieces: seq<seq<char>>, takes: seq<nat>, len: nat): seq<char>
    requires |takes| == |pieces| && len <= OUTCHARSLEN
    decreases |pieces|
  {
    if pieces == [] then []
    else
      var t := FeedAll(s, pieces[0]);
      var passed := if |s.out| <= |t.out| then t.out[|s.out|..] else [];
      var left := if len <= takes[0] then 0 else len - takes[0];
      var n := if |passed| <= OUTCHARSLEN - left then |passed| else OUTCHARSLEN - left;
      passed[..n] + Kept(t, pieces[1..], takes[1..], left + n)
  }

  /** With a writer that empties the queue between reads, everything fits. */
  lemma {:induction false} KeepsUp(s: Filter, pieces: seq<seq<char>>, takes: seq<nat>, len: nat)
    requires |takes| == |pieces| && len <= OUTCHARSLEN
    requires forall k :: 0 <= k < |pieces| ==> |pieces[k]| <= 4 && takes[k] >= OUTCHARSLEN
    ensures s.out + Kept(s, pieces, takes, len) == FeedAll(s, Concat(pieces)).out
    decreases |pieces|
  {
    if pieces != [] {
      var t := FeedAll(s, pieces[0]);
      FeedBound(s, pieces[0]);
      var passed := t.out[|s.out|..];
      assert t.out == s.out + passed && passed[..|passed|] == passed;
      assert takes[0] >= OUTCHARSLEN && |pieces[0]| <= 4;
      forall k | 0 <= k < |pieces[1..]|
        ensures |pieces[1..][k]| <= 4 && takes[1..][k] >= OUTCHARSLEN
      {
        assert pieces[1..][k] == pieces[k + 1] && takes[1..][k] == takes[k + 1];
      }
      KeepsUp(t, pieces[1..], takes[1..], |passed|);
      Grouped(s.out, passed, Kept(t, pieces[1..], takes[1..], |passed|));
      ConcatFirst(pieces);
      FeedSplit(s, pieces[0], Concat(pieces[1..]));
    }
  }

  lemma {:induction false} ConcatFirst(pieces: seq<seq<char>>)
    requires pieces != []
    ensures Concat(pieces) == pieces[0] + Concat(pieces[1..])
    decreases |pieces|
  {
    var n := |pieces| - 1;
    if n > 0 {
      ConcatFirst(pieces[..n]);
      assert pieces[1..][..n - 1] == pieces[..n][1..];
      Grouped(pieces[0], Concat(pieces[..n][1..]), pieces[n]);
    }
  }

  lemma KeptNext(s: Filter, pieces: seq<seq<char>>, takes: seq<nat>, k: nat, len: nat, passed: seq<char>, n: nat,
                 kept: seq<char>, all: seq<char>)
    requires k < |takes| == |pieces| && len <= OUTCHARSLEN && FeedAll(s, pieces[k]).out == s.out + passed
    requires var left := if len <= takes[k] then 0 else len - takes[k];
             n == if |passed| <= OUTCHARSLEN - left then |passed| else OUTCHARSLEN - left
    requires all == kept + Kept(s, pieces[k..], takes[k..], len)
    ensures var left := if len <= takes[k] then 0 else len - takes[k];
            all == kept + passed[..n] + Kept(FeedAll(s, pieces[k]), pieces[k + 1..], takes[k + 1..], left + n)
  {
    assert (s.out + passed)[|s.out|..] == passed;
    assert pieces[k..][1..] == pieces[k + 1..] && takes[k..][1..] == takes[k + 1..];
    var left := if len <= takes[k] then 0 else len - takes[k];
    Grouped(kept, passed[..n], Kept(FeedAll(s, pieces[k]), pieces[k + 1..], takes[k + 1..], left + n));
  }

  lemma Grouped(a: seq<char>, b: seq<char>, c: seq<char>)
    ensures a + b + c == a + (b + c)
  {
  }

  /** a is b with some characters left out. */
  predicate Within(a: seq<char>, b: seq<char>)
    decreases |b|
  {
    a == [] ||
    (b != [] &&
     ((a[|a| - 1] == b[|b| - 1] && Within(a[..|a| - 1], b[..|b| - 1])) || Within(a, b[..|b| - 1])))
  }

  lemma {:induction false} WithinMore(a: seq<char>, b: seq<char>, x: seq<char>, n: nat)
    requires Within(a, b) && n <= |x|
    ensures Within(a + x[..n], b + x)
    decreases |x|
  {
    if x == [] {
      assert a + x[..n] == a && b + x == b;
    } else {
      var y := x[..|x| - 1];
      assert (b + x)[..|b + x| - 1] == b + y;
      if n == |x| {
        WithinMore(a, b, y, n - 1);
        assert (a + x[..n])[..|a + x[..n]| - 1] == a + y[..n - 1];
      } else {
        WithinMore(a, b, y, n);
        assert x[..n] == y[..n];
      }
    }
  }

  function Concat(pieces: seq<seq<char>>): seq<char> {
    if pieces == [] then [] else Concat(pieces[..|pieces| - 1]) + pieces[|pieces| - 1]
  }

  lemma ConcatNext(pieces: seq<seq<char>>, k: nat)
    requires k < |pieces|
    ensures Concat(pieces[..k + 1]) == Concat(pieces[..k]) + pieces[k]
  {
    assert pieces[..k + 1][..k] == pieces[..k];
  }
}
