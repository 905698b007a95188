/** The response relay of internal/server/gateway.go: a byte-limited forwarding loop and the
    in-place buffer that keeps the end of what was forwarded. */
module Relay {
  import opened Wrappers

  newtype Byte = x: int | 0 <= x < 256

  /** The last max elements of s, or all of them. */
  function Tail(s: seq<Byte>, max: nat): (r: seq<Byte>)
    ensures |r| == if |s| <= max then |s| else max
  {
    if |s| <= max then s else s[|s| - max..]
  }

  lemma TailAppend(s: seq<Byte>, p: seq<Byte>, max: nat)
    ensures |p| >= max ==> Tail(s + p, max) == p[|p| - max..]
    ensures |p| < max ==>
              var t := Tail(s, max);
              Tail(s + p, max) == (if |t| + |p| > max then t[|t| + |p| - max..] else t) + p
  {}

  /** tailCapture: a buffer of fixed capacity, shifted and appended to in place. */
  class TailCapture {
    const data: array<Byte>
    var len: nat
    ghost var written: seq<Byte>

    ghost predicate Valid()
      reads this, data
    {
      len <= data.Length && Contents() == Tail(written, data.Length)
    }

    function Contents(): seq<Byte>
      requires len <= data.Length
      reads this, data
    {
      data[..len]
    }

    constructor (max: nat)
      ensures Valid() && fresh(data) && data.Length == max && written == []
    {
      data := new Byte[max];
      len := 0;
      written := [];
    }

    // Moves the bytes from offset on to the front and drops the rest.
    method Shift(offset: nat)
      requires offset <= len <= data.Length
      modifies data, `len
      ensures len == old(len) - offset && data[..len] == old(data[..len])[offset..]
    {
      for i := 0 to len - offset
        invariant len == old(len)
        invariant forall k | 0 <= k < i :: data[k] == old(data[..])[k + offset]
        invariant forall k | i <= k < data.Length :: data[k] == old(data[..])[k]
      {
        data[i] := data[i + offset];
      }
      len := len - offset;
    }

    method Append(p: seq<Byte>)
      requires len + |p| <= data.Length
      modifies data, `len
      ensures len == old(len) + |p| && data[..len] == old(data[..len]) + p
    {
      for i := 0 to |p|
        invariant len == old(len)
        invariant forall k | 0 <= k < i :: data[len + k] == p[k]
        invariant forall k | 0 <= k < len :: data[k] == old(data[..])[k]
      {
        data[len + i] := p[i];
      }
      len := len + |p|;
    }

    /** After any sequence of writes the buffer holds the last bytes of all that was written. */
    method Write(p: seq<Byte>)
      requires Valid()
      modifies this, data
      ensures Valid() && written == old(written) + p
    {
      TailAppend(written, p, data.Length);
      if |p| >= data.Length {
        len := 0;
        Append(p[|p| - data.Length..]);
      } else {
        if len + |p| > data.Length {
          Shift(len + |p| - data.Length);
        }
        Append(p);
      }
      written := written + p;
    }
  }

  // ----- the forwarding loop

  /** How much of a chunk may still pass, and whether the limit cut it. */
  function BoundedChunkLimit(written: int, maximum: int, chunk: int): (r: (int, bool))
    ensures 0 <= r.0 && (chunk >= 0 ==> r.0 <= chunk)
    ensures r.1 <==> chunk > 0 && r.0 < chunk
    ensures 0 < maximum && written <= maximum ==> written + r.0 <= maximum && (r.1 ==> written + r.0 == maximum)
    ensures 0 < maximum < written && chunk > 0 ==> r == (0, true)
    ensures maximum <= 0 ==> !r.1
  {
    if chunk <= 0 || maximum <= 0 || written + chunk <= maximum then ((if chunk < 0 then 0 else chunk), false)
    else if maximum - written <= 0 then (0, true)
    else (maximum - written, true)
  }

  datatype End = More | Eof | Broken

  // One turn of the loop as the outside world answers it: the bytes read and how the read
  // ended, after how many bytes the client's connection failed, if it did, and whether the
  // request was cancelled by the time the loop looks.
  datatype Turn = Turn(data: seq<Byte>, end: End, failedAfter: Option<nat>, cancelled: bool)

  datatype Code = Clear | TooLarge | ClientDisconnected | UpstreamError

  function Joined(turns: seq<Turn>): seq<Byte> {
    if turns == [] then [] else Joined(turns[..|turns| - 1]) + turns[|turns| - 1].data
  }

  function Prefix(s: seq<Byte>, limit: int): seq<Byte> {
    if limit > 0 && |s| > limit then s[..limit] else s
  }

  ghost predicate Exceeds(s: seq<Byte>, limit: int) { limit > 0 && |s| > limit }

  const CAPTURE: nat := 0x200000

  // A turn that leaves the loop running, as far as the limit allows.
  ghost predicate Continues(t: Turn) { (t.failedAfter.None? || t.data == []) && t.end.More? && !t.cancelled }

  // The client stayed and upstream did not break off.
  ghost predicate Undisturbed(turns: seq<Turn>) {
    && (forall i | 0 <= i < |turns| :: turns[i].failedAfter.None? && !turns[i].cancelled && !turns[i].end.Broken?)
    && (forall i | 0 <= i < |turns| - 1 :: turns[i].end.More?)
  }

  lemma JoinedSteps(turns: seq<Turn>, n: nat)
    requires n < |turns|
    ensures Joined(turns[..n + 1]) == Joined(turns[..n]) + turns[n].data
  {
    assert turns[..n + 1][..n] == turns[..n];
  }

  lemma {:induction false} JoinedPrefix(turns: seq<Turn>, n: nat)
    requires n <= |turns|
    ensures Joined(turns[..n]) <= Joined(turns)
  {
    if n < |turns| {
      var before := turns[..|turns| - 1];
      JoinedPrefix(before, n);
      assert before[..n] == turns[..n];
    } else {
      assert turns[..n] == turns;
    }
  }

  lemma PrefixGrows(s: seq<Byte>, chunk: seq<Byte>, limit: int, allowed: int)
    requires !Exceeds(s, limit)
    requires allowed == BoundedChunkLimit(|s|, limit, |chunk|).0
    ensures Prefix(s + chunk, limit) == s + chunk[..allowed]
    ensures Exceeds(s + chunk, limit) <==> allowed < |chunk|
  {}

  // How a turn that delivered s in all leaves the loop.
  ghost predicate Ends(t: Turn, s: seq<Byte>, limit: int, code: Code, running: bool) {
    && (running <==> Continues(t) && !Exceeds(s, limit))
    && (running ==> code.Clear?)
    && (code.TooLarge? ==> Exceeds(s, limit))
    && (Exceeds(s, limit) ==> code.TooLarge? || (code.ClientDisconnected? && t.failedAfter.Some?))
    && (!running && code.Clear? ==> t.end.Eof?)
    && (code.UpstreamError? ==> t.end.Broken? && !t.cancelled)
    && (code.ClientDisconnected? ==> t.cancelled || t.failedAfter.Some?)
  }

  /** One turn of the loop. */
  method ForwardTurn(capture: TailCapture, turn: Turn, limit: int, observed: int)
    returns (sent: seq<Byte>, allowed: nat, code: Code, partial: bool, running: bool)
    requires capture.Valid() && observed == |capture.written| && !Exceeds(capture.written, limit)
    modifies capture, capture.data
    ensures capture.Valid() && capture.written == Prefix(old(capture.written) + turn.data, limit)
    ensures allowed <= |turn.data| && capture.written == old(capture.written) + turn.data[..allowed]
    ensures sent <= turn.data[..allowed] && (turn.failedAfter.None? ==> sent == turn.data[..allowed])
    ensures running ==> sent == turn.data[..allowed]
    ensures Ends(turn, old(capture.written) + turn.data, limit, code, running)
    ensures partial <==> !code.Clear?
  {
    sent, allowed, code, partial, running := [], 0, Clear, false, true;
    PrefixGrows(capture.written, turn.data, limit, BoundedChunkLimit(observed, limit, |turn.data|).0);
    if |turn.data| > 0 {
      var bound := BoundedChunkLimit(observed, limit, |turn.data|);
      allowed := bound.0;
      if bound.1 {
        code, partial := TooLarge, true;
      }
      capture.Write(turn.data[..allowed]);
      if allowed > 0 {
        if turn.failedAfter.Some? {
          var k := if turn.failedAfter.value < allowed then turn.failedAfter.value else allowed;
          return turn.data[..k], allowed, ClientDisconnected, true, false;
        }
        sent := turn.data[..allowed];
      }
      if allowed < |turn.data| {
        running := false;
        return;
      }
    }
    if !turn.end.More? {
      if turn.end.Broken? && code.Clear? {
        code := if turn.cancelled then ClientDisconnected else UpstreamError;
        partial := true;
      }
      running := false;
    } else if turn.cancelled {
      code, partial, running := ClientDisconnected, true, false;
    }
  }

  // Where a run stands after `used` turns: `passed` is the limit's prefix of what upstream
  // delivered, and `sent` what reached the client.
  ghost predicate Relayed(
    turns: seq<Turn>, limit: int, used: nat, passed: seq<Byte>, sent: seq<Byte>, code: Code, running: bool)
  {
    && used <= |turns|
    && passed == Prefix(Joined(turns[..used]), limit)
    // short only of what the client's own failing connection lost
    && sent <= passed
    && ((forall i | 0 <= i < used :: turns[i].failedAfter.None?) ==> sent == passed)
    // every turn but the last continued, within the limit, and the last one decides the code
    && (forall i | 0 <= i < used - 1 :: Continues(turns[i]))
    && (used > 0 ==> !Exceeds(Joined(turns[..used - 1]), limit))
    && (if used == 0 then running && code.Clear?
        else Ends(turns[used - 1], Joined(turns[..used]), limit, code, running))
    && (running ==> sent == passed)
  }

  lemma RelayedTurn(turns: seq<Turn>, limit: int, used: nat, passed: seq<Byte>, sent: seq<Byte>, code: Code,
                    allowed: nat, more: seq<Byte>, nextCode: Code, running: bool)
    requires Relayed(turns, limit, used, passed, sent, code, true) && used < |turns| && allowed <= |turns[used].data|
    requires passed + turns[used].data[..allowed] == Prefix(passed + turns[used].data, limit)
    requires more <= turns[used].data[..allowed]
    requires turns[used].failedAfter.None? || running ==> more == turns[used].data[..allowed]
    requires Ends(turns[used], passed + turns[used].data, limit, nextCode, running)
    ensures Relayed(turns, limit, used + 1, passed + turns[used].data[..allowed], sent + more, nextCode, running)
  {
    JoinedSteps(turns, used);
    StillWithin(turns, limit, used, passed, sent, code);
  }

  lemma StillWithin(turns: seq<Turn>, limit: int, used: nat, passed: seq<Byte>, sent: seq<Byte>, code: Code)
    requires Relayed(turns, limit, used, passed, sent, code, true)
    ensures !Exceeds(Joined(turns[..used]), limit) && passed == Joined(turns[..used])
    ensures forall i | 0 <= i < used :: Continues(turns[i])
  {}

  /** The relay over every finite run of turns, of which it made `used` reads. */
  method Forward(turns: seq<Turn>, limit: int)
    returns (sent: seq<Byte>, observed: int, captured: seq<Byte>, code: Code, partial: bool, used: nat, running: bool)
    ensures used <= |turns| && (running ==> used == |turns|)
    ensures Relayed(turns, limit, used, Prefix(Joined(turns[..used]), limit), sent, code, running)
    ensures observed == |Prefix(Joined(turns[..used]), limit)|
    ensures captured == Tail(Prefix(Joined(turns[..used]), limit), CAPTURE)
    ensures partial <==> !code.Clear?
  {
    var capture := new TailCapture(CAPTURE);
    sent, observed, code, partial, used, running := [], 0, Clear, false, 0, true;
    assert turns[..0] == [];
    while running && used < |turns|
      invariant capture.Valid() && fresh(capture) && fresh(capture.data) && capture.data.Length == CAPTURE
      invariant observed == |capture.written|
      invariant Relayed(turns, limit, used, capture.written, sent, code, running)
      invariant partial <==> !code.Clear?
      decreases running, |turns| - used
    {
      ghost var passed, before := capture.written, code;
      StillWithin(turns, limit, used, passed, sent, code);
      var more, allowed;
      more, allowed, code, partial, running := ForwardTurn(capture, turns[used], limit, observed);
      RelayedTurn(turns, limit, used, passed, sent, before, allowed, more, code, running);
      observed := observed + allowed;
      sent := sent + more;
      used := used + 1;
    }
    captured := capture.Contents();
  }

  /** An undisturbed stream reaches the client as the limit's prefix, however upstream cut it
      up, and is too large exactly when upstream sent more than the limit. */
  lemma UndisturbedRelay(
    turns: seq<Turn>, limit: int, used: nat, passed: seq<Byte>, sent: seq<Byte>, code: Code, running: bool)
    requires Undisturbed(turns)
    requires Relayed(turns, limit, used, passed, sent, code, running) && (running ==> used == |turns|)
    ensures sent == passed == Prefix(Joined(turns), limit)
    ensures code == (if Exceeds(Joined(turns), limit) then TooLarge else Clear)
  {
    assert turns[..0] == [];
    Completed(turns, used, limit);
  }

  // An undisturbed run that stopped had read everything or passed the limit.
  lemma Completed(turns: seq<Turn>, used: nat, limit: int)
    requires used <= |turns|
    requires Exceeds(Joined(turns[..used]), limit) || used == |turns|
    ensures Prefix(Joined(turns), limit) == Prefix(Joined(turns[..used]), limit)
    ensures Exceeds(Joined(turns), limit) <==> Exceeds(Joined(turns[..used]), limit)
  {
    JoinedPrefix(turns, used);
    if used == |turns| { assert turns[..used] == turns; }
  }
}
