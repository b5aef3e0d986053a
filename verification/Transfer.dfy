/** The sending application of tcp-large-transfer.cc against a socket that may
    offer any buffer space, accept part of a write, accept nothing, or refuse. */
module Transfer {

  const TOTAL_TX_BYTES: nat := 2000000
  const WRITE_SIZE: nat := 1040

  /** What the socket answers in one round of the loop: its free buffer space
      and the value Send would return (negative: refused; otherwise at most
      what was offered is taken). */
  datatype Reply = Reply(available: nat, sent: int)

  /** The answers the socket gives during one callback, round by round. */
  type Answers = nat -> Reply

  /** Byte number k of the stream: the lower-case letters, over and over. */
  function Letter(k: nat): int {
    "abcdefghijklmnopqrstuvwxyz"[k % 26] as int
  }

  lemma LetterCode(k: nat)
    ensures Letter(k) == 'a' as int + k % 26
  {
  }

  ghost predicate IsPattern(s: seq<int>) {
    forall k :: 0 <= k < |s| ==> s[k] == Letter(k)
  }

  function Min(a: nat, b: nat): nat {
    if a < b then a else b
  }

  /** The write buffer continues the pattern at the right phase, because its
      length is a multiple of the alphabet. */
  lemma BufferPhase(sent: nat, j: nat)
    ensures Letter(sent % WRITE_SIZE + j) == Letter(sent + j)
  {
    SamePhase(sent, j);
  }

  lemma SamePhase(sent: nat, j: nat)
    ensures (sent % WRITE_SIZE + j) % 26 == (sent + j) % 26
  {
    var q, r := sent / WRITE_SIZE, sent % WRITE_SIZE;
    assert sent == 1040 * q + r;
    WholeAlphabets(40 * q, r + j);
  }

  lemma WholeAlphabets(m: nat, x: nat)
    ensures (26 * m + x) % 26 == x % 26
  {
    var y := x / 26;
    assert 26 * m + x == 26 * (m + y) + x % 26;
  }

  // ---------------------------------------------------------------------
  // The answers of one callback
  // ---------------------------------------------------------------------

  /** The bytes that go through in a round that starts with bytes accepted. */
  ghost function Taken(bytes: nat, r: Reply): (n: nat)
    ensures bytes <= TOTAL_TX_BYTES ==> bytes + n <= TOTAL_TX_BYTES
    ensures bytes < TOTAL_TX_BYTES && r.available > 0 ==> (n > 0 <==> r.sent > 0)
  {
    if r.sent <= 0 || bytes >= TOTAL_TX_BYTES then 0
    else Min(r.sent, Min(Min(WRITE_SIZE - bytes % WRITE_SIZE, TOTAL_TX_BYTES - bytes), r.available))
  }

  /** n is the most that the offer, the free space, the bytes left and the rest
      of the write buffer all allow. */
  ghost predicate IsMost(n: int, bytes: nat, r: Reply) {
    && Allowed(n, bytes, r)
    && forall m :: n < m ==> !Allowed(m, bytes, r)
  }

  ghost predicate Allowed(n: int, bytes: nat, r: Reply) {
    0 <= n <= r.sent && n <= r.available && bytes + n <= TOTAL_TX_BYTES && bytes % WRITE_SIZE + n <= WRITE_SIZE
  }

  ghost function BytesAfter(answers: Answers, bytes: nat, n: nat): nat {
    if n == 0 then bytes
    else
      var b := BytesAfter(answers, bytes, n - 1);
      b + Taken(b, answers(n - 1))
  }

  /** Round n is not completed: nothing is left to send, the buffer is full, or Send refuses. */
  ghost predicate StopsAt(answers: Answers, bytes: nat, n: nat) {
    BytesAfter(answers, bytes, n) >= TOTAL_TX_BYTES || answers(n).available == 0 || answers(n).sent < 0
  }

  ghost predicate Unstopped(answers: Answers, bytes: nat, n: nat) {
    forall m :: 0 <= m < n ==> !StopsAt(answers, bytes, m)
  }

  ghost predicate StopsFirstAt(answers: Answers, bytes: nat, n: nat) {
    StopsAt(answers, bytes, n) && Unstopped(answers, bytes, n)
  }

  lemma RoundCompleted(answers: Answers, bytes: nat, n: nat, end: nat)
    requires Unstopped(answers, bytes, n) && !StopsAt(answers, bytes, n)
    requires n <= end && StopsAt(answers, bytes, end)
    ensures Unstopped(answers, bytes, n + 1) && n < end
    ensures BytesAfter(answers, bytes, n + 1)
      == BytesAfter(answers, bytes, n) + Taken(BytesAfter(answers, bytes, n), answers(n))
  {
  }

  /** The callback returns. */
  ghost predicate Ends(answers: Answers, bytes: nat) {
    exists n: nat :: StopsAt(answers, bytes, n)
  }

  /** In round n there is space and Send does not refuse. */
  ghost predicate Open(answers: Answers, n: nat) {
    answers(n).available > 0 && answers(n).sent >= 0
  }

  /** In round n there is space and Send takes nothing. */
  ghost predicate Idle(answers: Answers, n: nat) {
    answers(n).available > 0 && answers(n).sent == 0
  }

  /** Some byte goes through before the buffer is full or Send refuses. */
  ghost predicate Takes(answers: Answers) {
    exists n: nat ::
      answers(n).available > 0 && answers(n).sent > 0 && forall m :: 0 <= m < n ==> Idle(answers, m)
  }

  /** The socket never refuses and always has space, but from round t on takes
      nothing, although bytes are left. */
  ghost predicate StallsFrom(answers: Answers, bytes: nat, t: nat) {
    && BytesAfter(answers, bytes, t) < TOTAL_TX_BYTES
    && (forall n: nat :: n < t ==> Open(answers, n))
    && (forall n: nat :: t <= n ==> Idle(answers, n))
  }

  lemma {:induction false} BytesGrow(answers: Answers, bytes: nat, m: nat, n: nat)
    requires m <= n && bytes <= TOTAL_TX_BYTES
    ensures BytesAfter(answers, bytes, m) <= BytesAfter(answers, bytes, n) <= TOTAL_TX_BYTES
    decreases n
  {
    if m < n {
      BytesGrow(answers, bytes, m, n - 1);
    } else if n > 0 {
      BytesGrow(answers, bytes, n - 1, n - 1);
    }
  }

  lemma {:induction false} IdleKeepsBytes(answers: Answers, bytes: nat, t: nat, n: nat)
    requires t <= n && forall m :: t <= m < n ==> Idle(answers, m)
    ensures BytesAfter(answers, bytes, n) == BytesAfter(answers, bytes, t)
    decreases n
  {
    if t < n {
      assert Idle(answers, n - 1);
      IdleKeepsBytes(answers, bytes, t, n - 1);
    }
  }

  /** A completed round gains bytes unless Send took nothing. */
  lemma RoundGains(answers: Answers, bytes: nat, n: nat)
    requires bytes <= TOTAL_TX_BYTES && !StopsAt(answers, bytes, n)
    ensures Open(answers, n)
    ensures BytesAfter(answers, bytes, n) < BytesAfter(answers, bytes, n + 1) <==> !Idle(answers, n)
    ensures BytesAfter(answers, bytes, n) <= BytesAfter(answers, bytes, n + 1) <= TOTAL_TX_BYTES
  {
    BytesGrow(answers, bytes, n, n + 1);
  }

  lemma {:induction false} StallSearch(answers: Answers, bytes: nat, t: nat)
    requires bytes <= TOTAL_TX_BYTES && !Ends(answers, bytes)
    ensures exists u: nat :: StallsFrom(answers, bytes, u)
    decreases TOTAL_TX_BYTES - BytesAfter(answers, bytes, t)
  {
    assert forall n: nat :: !StopsAt(answers, bytes, n);
    if n: nat :| t <= n && !Idle(answers, n) {
      BytesGrow(answers, bytes, t, n);
      RoundGains(answers, bytes, n);
      StallSearch(answers, bytes, n + 1);
    } else {
      assert !StopsAt(answers, bytes, t);
      forall n: nat | n < t ensures Open(answers, n) {
        RoundGains(answers, bytes, n);
      }
      assert StallsFrom(answers, bytes, t);
    }
  }

  /** A callback runs for ever exactly when the socket stalls: with bytes left
      and space offered it accepts nothing from some round on. */
  lemma RunsForEverIff(answers: Answers, bytes: nat)
    requires bytes <= TOTAL_TX_BYTES
    ensures !Ends(answers, bytes) <==> exists t: nat :: StallsFrom(answers, bytes, t)
  {
    if !Ends(answers, bytes) {
      StallSearch(answers, bytes, 0);
    }
    if t: nat :| StallsFrom(answers, bytes, t) {
      forall n: nat ensures !StopsAt(answers, bytes, n) {
        if n <= t {
          BytesGrow(answers, bytes, n, t);
          assert if n == t then Idle(answers, n) else Open(answers, n);
        } else {
          IdleKeepsBytes(answers, bytes, t, n);
          assert Idle(answers, n);
        }
      }
    }
  }

  /** From round t on some round refuses, finds the buffer full, or progresses. */
  ghost predicate AnswersAfter(answers: Answers, t: nat) {
    exists n: nat :: t <= n && !Idle(answers, n)
  }

  /** A socket that answers again and again lets the callback return. */
  lemma AnsweringEnds(answers: Answers, bytes: nat)
    requires bytes <= TOTAL_TX_BYTES
    requires forall t: nat :: AnswersAfter(answers, t)
    ensures Ends(answers, bytes)
  {
    RunsForEverIff(answers, bytes);
    forall t: nat ensures !StallsFrom(answers, bytes, t) {
      assert AnswersAfter(answers, t);
    }
  }

  lemma {:induction false} NoGainIsIdle(answers: Answers, bytes: nat, n: nat)
    requires bytes <= TOTAL_TX_BYTES && BytesAfter(answers, bytes, n) == bytes
    requires Unstopped(answers, bytes, n)
    ensures forall m :: 0 <= m < n ==> Idle(answers, m)
  {
    if n > 0 {
      BytesGrow(answers, bytes, 0, n - 1);
      RoundGains(answers, bytes, n - 1);
      NoGainIsIdle(answers, bytes, n - 1);
    }
  }

  lemma {:induction false} GainTakes(answers: Answers, bytes: nat, n: nat)
    requires bytes <= TOTAL_TX_BYTES && BytesAfter(answers, bytes, n) > bytes
    requires Unstopped(answers, bytes, n)
    ensures Takes(answers)
  {
    if BytesAfter(answers, bytes, n - 1) > bytes {
      GainTakes(answers, bytes, n - 1);
    } else {
      BytesGrow(answers, bytes, 0, n - 1);
      NoGainIsIdle(answers, bytes, n - 1);
      RoundGains(answers, bytes, n - 1);
    }
  }

  /** A callback with bytes left gains some exactly when a byte goes through before it is stopped. */
  lemma {:induction false} GainsIff(answers: Answers, bytes: nat, n: nat)
    requires bytes < TOTAL_TX_BYTES && StopsFirstAt(answers, bytes, n)
    ensures BytesAfter(answers, bytes, n) > bytes <==> Takes(answers)
  {
    if Takes(answers) {
      var t: nat :| answers(t).available > 0 && answers(t).sent > 0 && forall m :: 0 <= m < t ==> Idle(answers, m);
      forall m | 0 <= m <= t ensures BytesAfter(answers, bytes, m) == bytes && !StopsAt(answers, bytes, m) {
        IdleKeepsBytes(answers, bytes, 0, m);
        assert m < t ==> Idle(answers, m);
      }
      RoundGains(answers, bytes, t);
      BytesGrow(answers, bytes, t + 1, n);
    }
    if BytesAfter(answers, bytes, n) > bytes {
      GainTakes(answers, bytes, n);
    }
  }

  class Flow {
    const data: array<int>
    var currentTxBytes: nat
    /** The bytes the socket has accepted, in order. */
    var accepted: seq<int>
    /** How often Close was called. */
    var closes: nat

    ghost predicate Valid()
      reads this, data
    {
      && data.Length == WRITE_SIZE && IsPattern(data[..])
      && currentTxBytes == |accepted| <= TOTAL_TX_BYTES
      && IsPattern(accepted)
      && (closes > 0 ==> currentTxBytes == TOTAL_TX_BYTES)
    }

    /** The transmit buffer as main initialises it. */
    constructor ()
      ensures Valid() && accepted == [] && closes == 0
    {
      var buffer := new int[WRITE_SIZE];
      for i := 0 to WRITE_SIZE
        invariant forall k :: 0 <= k < i ==> buffer[k] == Letter(k)
      {
        LetterCode(i);
        buffer[i] := 'a' as int + i % 26;
      }
      data := buffer;
      currentTxBytes, accepted, closes := 0, [], 0;
    }

    /** Socket::Send of count bytes of the buffer from an offset. */
    method Send(r: Reply, offset: nat, count: nat) returns (amountSent: int)
      requires Valid() && offset + count <= WRITE_SIZE
      modifies this`accepted
      ensures amountSent == if r.sent < 0 then -1 else Min(r.sent, count)
      ensures accepted == old(accepted) + if amountSent < 0 then [] else data[offset..offset + amountSent]
    {
      if r.sent < 0 { return -1; }
      amountSent := Min(r.sent, count);
      accepted := accepted + data[offset..offset + amountSent];
    }

    /** One round of the loop, whatever the socket answers (an acceptance of
        zero bytes included). */
    method WriteOnce(r: Reply) returns (refused: bool)
      requires Valid() && currentTxBytes < TOTAL_TX_BYTES && r.available > 0
      modifies this`currentTxBytes, this`accepted
      ensures Valid() && old(accepted) <= accepted
      ensures refused <==> r.sent < 0
      ensures currentTxBytes == old(currentTxBytes) + Taken(old(currentTxBytes), r)
      ensures r.sent <= 0 ==> accepted == old(accepted)
      ensures r.sent > 0 ==> IsMost(currentTxBytes - old(currentTxBytes), old(currentTxBytes), r)
    {
      var left := TOTAL_TX_BYTES - currentTxBytes;
      var dataOffset := currentTxBytes % WRITE_SIZE;
      var toWrite := WRITE_SIZE - dataOffset;
      toWrite := Min(toWrite, left);
      toWrite := Min(toWrite, r.available);
      ghost var before := accepted;
      var amountSent := Send(r, dataOffset, toWrite);
      if amountSent < 0 {
        assert accepted == before;
        return true;
      }
      AppendedPattern(before, data[dataOffset..dataOffset + amountSent], currentTxBytes, dataOffset);
      currentTxBytes := currentTxBytes + amountSent;
      return false;
    }

    lemma AppendedPattern(before: seq<int>, more: seq<int>, sent: nat, offset: nat)
      requires data.Length == WRITE_SIZE && IsPattern(data[..]) && IsPattern(before)
      requires sent == |before| && offset == sent % WRITE_SIZE && offset + |more| <= WRITE_SIZE
      requires more == data[offset..offset + |more|]
      ensures IsPattern(before + more)
    {
      var all := before + more;
      forall k | 0 <= k < |all| ensures all[k] == Letter(k) {
        if k >= sent {
          assert all[k] == more[k - sent] == data[..][offset + (k - sent)];
          BufferPhase(sent, k - sent);
        }
      }
    }

    /** The loop of the callback, up to the first round that is not completed. */
    method WriteRounds(answers: Answers) returns (ghost rounds: nat)
      requires Valid() && Ends(answers, currentTxBytes)
      modifies this`currentTxBytes, this`accepted
      ensures Valid() && old(accepted) <= accepted
      ensures StopsFirstAt(answers, old(currentTxBytes), rounds)
      ensures currentTxBytes == BytesAfter(answers, old(currentTxBytes), rounds)
    {
      ghost var bytes := currentTxBytes;
      ghost var end: nat :| StopsAt(answers, bytes, end);
      var round := 0;
      while currentTxBytes < TOTAL_TX_BYTES && answers(round).available > 0
        invariant Valid() && old(accepted) <= accepted && round <= end
        invariant currentTxBytes == BytesAfter(answers, bytes, round)
        invariant Unstopped(answers, bytes, round)
        decreases end - round
      {
        var refused := WriteOnce(answers(round));
        if refused { return round; }
        RoundCompleted(answers, bytes, round, end);
        round := round + 1;
      }
      return round;
    }

    /** The callback.  It returns exactly when Ends holds (see RunsForEverIff);
        Close is called exactly when all bytes have been accepted. */
    method WriteUntilBufferFull(answers: Answers)
      requires Valid() && Ends(answers, currentTxBytes)
      modifies this
      ensures Valid() && old(accepted) <= accepted
      ensures exists n: nat :: StopsFirstAt(answers, old(currentTxBytes), n)
                            && currentTxBytes == BytesAfter(answers, old(currentTxBytes), n)
      ensures currentTxBytes > old(currentTxBytes) <==> old(currentTxBytes) < TOTAL_TX_BYTES && Takes(answers)
      ensures closes == old(closes) + if currentTxBytes == TOTAL_TX_BYTES then 1 else 0
    {
      ghost var rounds := WriteRounds(answers);
      if old(currentTxBytes) < TOTAL_TX_BYTES {
        GainsIff(answers, old(currentTxBytes), rounds);
      }
      if currentTxBytes >= TOTAL_TX_BYTES {
        closes := closes + 1;
      }
    }

    /** The calls of a whole run, StartFlow's and those of the send callback, each
        with its own answers: a buffer that was full, or a refused write, may be
        followed by space again. */
    method Simulate(calls: seq<Answers>)
      requires Valid() && accepted == [] && closes == 0 && AllReturn(calls, 0)
      modifies this
      ensures Valid()
      ensures currentTxBytes == TOTAL_TX_BYTES <==> closes > 0
      ensures closes > 0 ==> |accepted| == TOTAL_TX_BYTES && IsPattern(accepted)
      ensures TakingCalls(calls) <= currentTxBytes || closes > 0
      ensures TakingCalls(calls) >= TOTAL_TX_BYTES ==> closes > 0
      ensures TakingCalls(calls) == 0 ==> accepted == []
    {
      for i := 0 to |calls|
        invariant Valid() && (currentTxBytes == TOTAL_TX_BYTES <==> closes > 0)
        invariant AllReturn(calls[i..], currentTxBytes)
        invariant Achieved(TakingCalls(calls[..i]))
      {
        assert calls[..i + 1][..i] == calls[..i] && calls[i..][1..] == calls[i + 1..];
        WriteUntilBufferFull(calls[i]);
      }
      assert calls[..|calls|] == calls;
    }

    /** What n calls that got a byte through have achieved. */
    ghost predicate Achieved(n: nat)
      reads this
    {
      (n <= currentTxBytes || currentTxBytes == TOTAL_TX_BYTES) && (n == 0 ==> currentTxBytes == 0)
    }
  }

  /** Every call returns, each starting from the bytes the calls before it left. */
  ghost predicate AllReturn(calls: seq<Answers>, bytes: nat)
    decreases |calls|
  {
    calls == [] ||
    (Ends(calls[0], bytes)
     && forall n: nat :: StopsFirstAt(calls[0], bytes, n) ==> AllReturn(calls[1..], BytesAfter(calls[0], bytes, n)))
  }

  /** How many calls get a byte through before they are stopped. */
  ghost function TakingCalls(calls: seq<Answers>): nat {
    if calls == [] then 0
    else TakingCalls(calls[..|calls| - 1]) + if Takes(calls[|calls| - 1]) then 1 else 0
  }
}
