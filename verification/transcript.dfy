/**
 * The text `msg_get` sends back: every unread message followed by a
 * newline, in log order (src/main.rs:102-106), together with the reader-side
 * split into lines that recovers the messages from that text.
 */
module Transcript {

  /** The concatenation of `ms`, each message terminated by '\n'. */
  function Render(ms: seq<string>): string
  {
    if ms == [] then "" else ms[0] + "\n" + Render(ms[1..])
  }

  /** Rendering distributes over concatenation of message batches. */
  lemma {:induction false} RenderAppend(a: seq<string>, b: seq<string>)
    ensures Render(a + b) == Render(a) + Render(b)
  {
    if a == [] {
      assert a + b == b;
    } else {
      assert (a + b)[1..] == a[1..] + b;
      RenderAppend(a[1..], b);
    }
  }

  /**
   * The loop of `msg_get`: start from an empty string and push each message
   * and then a newline.
   */
  method RenderLoop(ms: seq<string>) returns (ret: string)
    ensures ret == Render(ms)
  {
    ret := "";
    var i := 0;
    while i < |ms|
      invariant 0 <= i <= |ms|
      invariant ret == Render(ms[..i])
    {
      assert ms[..i + 1] == ms[..i] + [ms[i]];
      RenderAppend(ms[..i], [ms[i]]);
      ret := ret + ms[i] + "\n";
      i := i + 1;
    }
    assert ms[..|ms|] == ms;
  }

  /** The position of the first newline of `t`, or `|t|` when there is none. */
  function NewlineAt(t: string): (i: nat)
    ensures i <= |t|
    ensures i < |t| ==> t[i] == '\n'
    ensures forall j :: 0 <= j < i ==> t[j] != '\n'
  {
    if t == [] then 0
    else if t[0] == '\n' then 0
    else 1 + NewlineAt(t[1..])
  }

  /**
   * Splits a text into its newline-terminated lines; an unterminated
   * remainder becomes a last line of its own.
   */
  function Lines(t: string): seq<string>
    decreases |t|
  {
    if t == [] then []
    else
      var i := NewlineAt(t);
      if i == |t| then [t] else [t[..i]] + Lines(t[i + 1..])
  }

  predicate NoNewline(m: string)
  {
    forall j :: 0 <= j < |m| ==> m[j] != '\n'
  }

  /** A text that starts with a newline-free line splits off that line first. */
  lemma LinesCons(m: string, rest: string)
    requires NoNewline(m)
    ensures Lines(m + "\n" + rest) == [m] + Lines(rest)
  {
    var t := m + "\n" + rest;
    assert t[|m|] == '\n';
    assert forall j :: 0 <= j < |m| ==> t[j] == m[j];
    assert NewlineAt(t) == |m|;
    assert t[..|m|] == m;
    assert t[|m| + 1..] == rest;
  }

  /**
   * Round trip: as long as no message contains a newline, splitting the
   * rendered text into lines gives back exactly the messages, in order.
   */
  lemma {:induction false} LinesRender(ms: seq<string>)
    requires forall k :: 0 <= k < |ms| ==> NoNewline(ms[k])
    ensures Lines(Render(ms)) == ms
  {
    if ms != [] {
      LinesCons(ms[0], Render(ms[1..]));
      LinesRender(ms[1..]);
      assert [ms[0]] + ms[1..] == ms;
    }
  }

  /**
   * Without the newline condition the round trip fails: a posted text that
   * holds a newline reads back as two lines, the second of which looks
   * like a message from another user.
   */
  lemma NewlineInMessageSplits()
    ensures Lines(Render(["A: hi\nB: x"])) == ["A: hi", "B: x"]
  {
    var first: string := "A: hi";
    var second: string := "B: x";
    assert NoNewline(first) && NoNewline(second);
    assert Render(["A: hi\nB: x"]) == first + "\n" + (second + "\n" + "");
    LinesCons(first, second + "\n" + "");
    LinesCons(second, "");
  }
}
