/** The order of grants and responses, and what it means for the owner of the connection. */
module Ledger {
  import opened Bytes
  import opened Protocol
  import Input

  /** A credit accepted, every credit withdrawn, or a packet handed to the pipe. */
  datatype Entry = Granted(token: nat) | Revoked | Sent(packet: Packet)

  predicate Spends(e: Entry) {
    e.Sent? && (e.packet.InputEvent? || e.packet.Resize?)
  }

  predicate Settles(e: Entry) {
    e.Sent? && (e.packet.Painted? || e.packet.Skipped?)
  }

  predicate Works(e: Entry) {
    Spends(e) || Settles(e)
  }

  /** The terminal is given up, or the owner told that it was. */
  predicate Closes(e: Entry) {
    e.Sent? && (e.packet.ResumeNeeded? || e.packet.Restored?)
  }

  predicate Opens(e: Entry) {
    e.Sent? && e.packet.Ready?
  }

  /** The one credit that is granted and neither spent nor withdrawn. */
  function Outstanding(t: seq<Entry>): Option<nat> {
    if t == [] then None
    else
      var last := t[|t| - 1];
      if last.Granted? then Some(last.token)
      else if last.Revoked? || Spends(last) then None
      else Outstanding(t[..|t| - 1])
  }

  /** Closed since, and not opened again. */
  predicate Barred(t: seq<Entry>) {
    t != [] && (Closes(t[|t| - 1]) || (!Opens(t[|t| - 1]) && Barred(t[..|t| - 1])))
  }

  predicate GrantsBelow(t: seq<Entry>, token: nat) {
    forall i :: 0 <= i < |t| && t[i].Granted? ==> t[i].token < token
  }

  predicate SettledBelow(t: seq<Entry>, sequence: nat) {
    forall i :: 0 <= i < |t| && Settles(t[i]) ==> t[i].packet.sequence < sequence
  }

  /** What may follow `t`. */
  ghost predicate May(t: seq<Entry>, e: Entry) {
    && (e.Granted? ==> Outstanding(t) == None && !Barred(t) && GrantsBelow(t, e.token))
    && (e.Sent? ==> GoodPacket(e.packet))
    && (Spends(e) ==> Outstanding(t) == Some(e.packet.token))
    && (Settles(e) ==> SettledBelow(t, e.packet.sequence))
    && (Works(e) ==> !Barred(t))
  }

  ghost predicate Lawful(t: seq<Entry>) {
    t == [] || (Lawful(t[..|t| - 1]) && May(t[..|t| - 1], t[|t| - 1]))
  }

  lemma Append(t: seq<Entry>, e: Entry)
    requires Lawful(t) && May(t, e)
    ensures Lawful(t + [e])
  {
    assert (t + [e])[..|t|] == t;
  }

  lemma AppendEffects(t: seq<Entry>, e: Entry)
    ensures Outstanding(t + [e]) == if e.Granted? then Some(e.token)
                                    else if e.Revoked? || Spends(e) then None else Outstanding(t)
    ensures Barred(t + [e]) <==> Closes(e) || (!Opens(e) && Barred(t))
    ensures Events(t + [e]) == Events(t) + if e.Sent? && e.packet.InputEvent? then [e.packet.event] else []
  {
    assert (t + [e])[..|t|] == t;
  }

  /** The input events sent, in order. */
  function Events(t: seq<Entry>): seq<Input.Event> {
    if t == [] then []
    else
      var last := t[|t| - 1];
      Events(t[..|t| - 1]) + if last.Sent? && last.packet.InputEvent? then [last.packet.event] else []
  }

  // ----- What a lawful trace promises -----

  /** Nothing between `i` and `j` grants, spends or withdraws. */
  predicate Undisturbed(t: seq<Entry>, i: nat, j: nat)
    requires i < j <= |t|
  {
    forall k :: i < k < j ==> t[k].Sent? && !Spends(t[k])
  }

  lemma {:induction false} GrantOf(t: seq<Entry>) returns (i: nat)
    requires Outstanding(t).Some?
    ensures i < |t| && t[i] == Granted(Outstanding(t).value) && Undisturbed(t, i, |t|)
  {
    if t[|t| - 1].Granted? {
      i := |t| - 1;
    } else {
      i := GrantOf(t[..|t| - 1]);
      assert t[..|t| - 1][i] == t[i];
      assert forall k :: i < k < |t| - 1 ==> t[k] == t[..|t| - 1][k];
    }
  }

  lemma {:induction false} LawfulPrefix(t: seq<Entry>, n: nat)
    requires Lawful(t) && n <= |t|
    ensures Lawful(t[..n]) && (n < |t| ==> May(t[..n], t[n]))
    decreases |t|
  {
    if n < |t| {
      var front := t[..|t| - 1];
      if n < |t| - 1 {
        LawfulPrefix(front, n);
        assert front[..n] == t[..n] && front[n] == t[n];
      }
    } else {
      assert t[..n] == t;
    }
  }

  /** Every Input and Resize carries the token of the one outstanding credit: it was granted before, and nothing has
      been granted, spent or withdrawn since. */
  lemma SpendsTheCredit(t: seq<Entry>, j: nat) returns (i: nat)
    requires Lawful(t) && j < |t| && Spends(t[j])
    ensures i < j && t[i] == Granted(t[j].packet.token) && Undisturbed(t, i, j)
  {
    LawfulPrefix(t, j);
    i := GrantOf(t[..j]);
    assert t[..j][i] == t[i];
    assert forall k :: i < k < j ==> t[k] == t[..j][k];
  }

  lemma GrantsIncrease(t: seq<Entry>, i: nat, j: nat)
    requires Lawful(t) && i < j < |t| && t[i].Granted? && t[j].Granted?
    ensures t[i].token < t[j].token
  {
    LawfulPrefix(t, j);
    assert t[..j][i] == t[i];
  }

  /** Emitted tokens strictly increase, so each is used at most once. */
  lemma TokensIncrease(t: seq<Entry>, i: nat, j: nat)
    requires Lawful(t) && i < j < |t| && Spends(t[i]) && Spends(t[j])
    ensures t[i].packet.token < t[j].packet.token
  {
    var a := SpendsTheCredit(t, i);
    var b := SpendsTheCredit(t, j);
    GrantsIncrease(t, a, b);
  }

  /** Draw sequences strictly increase, so each draw has at most one Painted or Skipped. */
  lemma SettlementsIncrease(t: seq<Entry>, i: nat, j: nat)
    requires Lawful(t) && i < j < |t| && Settles(t[i]) && Settles(t[j])
    ensures t[i].packet.sequence < t[j].packet.sequence
  {
    LawfulPrefix(t, j);
    assert t[..j][i] == t[i];
  }

  lemma {:induction false} OpenedBetween(t: seq<Entry>, i: nat, n: nat) returns (k: nat)
    requires i < n <= |t| && Closes(t[i]) && !Barred(t[..n])
    ensures i < k < n && Opens(t[k])
    decreases n
  {
    var s := t[..n];
    assert s[|s| - 1] == t[n - 1] && s[..|s| - 1] == t[..n - 1];
    if Opens(t[n - 1]) {
      k := n - 1;
    } else {
      k := OpenedBetween(t, i, n - 1);
    }
  }

  /** Behind a ResumeNeeded or a Restored there is no Painted, Skipped, Input or Resize before the next Ready. */
  lemma NothingBehindTheBarrier(t: seq<Entry>, i: nat, j: nat) returns (k: nat)
    requires Lawful(t) && i < j < |t| && Closes(t[i]) && Works(t[j])
    ensures i < k < j && Opens(t[k])
  {
    LawfulPrefix(t, j);
    k := OpenedBetween(t, i, j);
  }
}
