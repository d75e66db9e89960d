/**
 How a flush of the audit stream cuts redacted channel text over the buffered entries
 (the emitting half of packages/core/src/redacted-agent-stream.ts).
 */
module RedactedSlices {
  import opened Prelude
  import opened Utf16

  datatype Event =
    | Raw(invocationId: Text, source: Text, text: Text)
    | Assistant(invocationId: Text, text: Text)
    | Terminal(payload: Text)
    | Notice(payload: Text)

  predicate IsText(e: Event) {
    e.Raw? || e.Assistant?
  }

  function WithText(e: Event, t: Text): Event {
    match e
    case Raw(i, s, _) => Raw(i, s, t)
    case Assistant(i, _) => Assistant(i, t)
    case _ => e
  }

  /** A buffered event: text entries name their channel and keep only the length of their text. */
  datatype Entry = Entry(event: Event, channel: Option<Text>, length: nat)

  const MARKER: Text := Lit("[stream text omitted: audit buffer limit]") + [NEWLINE]

  /** No later entry belongs to the channel. */
  predicate IsLast(batch: seq<Entry>, i: nat, k: Text) {
    forall j :: i < j < |batch| ==> batch[j].channel != Some(k)
  }

  /** How much of the channel's text, `size` units long, the first `i` entries have taken. */
  function Taken(batch: seq<Entry>, i: nat, k: Text, size: nat, omit: bool): (n: nat)
    requires i <= |batch|
    ensures n <= size
  {
    if i == 0 then 0
    else
      var before := Taken(batch, i - 1, k, size, omit);
      if batch[i - 1].channel != Some(k) then before
      else if omit || IsLast(batch, i - 1, k) then size
      else Min(size, before + batch[i - 1].length)
  }

  lemma TakenGrows(batch: seq<Entry>, i: nat, k: Text, size: nat, omit: bool)
    requires i < |batch|
    ensures Taken(batch, i, k, size, omit) <= Taken(batch, i + 1, k, size, omit)
  {
  }

  /** The text of entry `i`: what its channel gives between two takings. */
  function Slice(batch: seq<Entry>, i: nat, texts: Text -> Text, omit: bool): Text
    requires i < |batch|
  {
    match batch[i].channel
    case None => []
    case Some(k) =>
      TakenGrows(batch, i, k, |texts(k)|, omit);
      texts(k)[Taken(batch, i, k, |texts(k)|, omit)..Taken(batch, i + 1, k, |texts(k)|, omit)]
  }

  function Rendered(entry: Entry, slice: Text, redactEvent: Event -> Event): Event {
    if entry.channel.None? then entry.event else redactEvent(WithText(entry.event, slice))
  }

  /** The events a flush emits for the first `n` entries. */
  function Emitted(batch: seq<Entry>, n: nat, texts: Text -> Text, omit: bool, redactEvent: Event -> Event): (r: seq<Event>)
    requires n <= |batch|
    ensures |r| == n
    ensures forall i :: 0 <= i < n ==> r[i] == Rendered(batch[i], Slice(batch, i, texts, omit), redactEvent)
  {
    if n == 0 then []
    else Emitted(batch, n - 1, texts, omit, redactEvent) + [Rendered(batch[n - 1], Slice(batch, n - 1, texts, omit), redactEvent)]
  }

  /** All text emitted for one channel by the first `n` entries, in order. */
  function ChannelOutput(batch: seq<Entry>, n: nat, k: Text, texts: Text -> Text, omit: bool): Text
    requires n <= |batch|
  {
    if n == 0 then []
    else
      ChannelOutput(batch, n - 1, k, texts, omit) +
      (if batch[n - 1].channel == Some(k) then Slice(batch, n - 1, texts, omit) else [])
  }

  lemma {:induction false} OutputIsTaken(batch: seq<Entry>, n: nat, k: Text, texts: Text -> Text, omit: bool)
    requires n <= |batch|
    ensures ChannelOutput(batch, n, k, texts, omit) == texts(k)[..Taken(batch, n, k, |texts(k)|, omit)]
  {
    if n > 0 {
      var v := texts(k);
      OutputIsTaken(batch, n - 1, k, texts, omit);
      TakenGrows(batch, n - 1, k, |v|, omit);
      var a, b := Taken(batch, n - 1, k, |v|, omit), Taken(batch, n, k, |v|, omit);
      assert v[..a] + v[a..b] == v[..b];
      assert v[..a] + [] == v[..a];
    }
  }

  lemma {:induction false} TakenAll(batch: seq<Entry>, n: nat, i: nat, k: Text, size: nat, omit: bool)
    requires i < n <= |batch| && batch[i].channel == Some(k) && IsLast(batch, i, k)
    ensures Taken(batch, n, k, size, omit) == size
  {
    if n > i + 1 {
      TakenAll(batch, n - 1, i, k, size, omit);
    }
  }

  lemma {:induction false} LastEntry(batch: seq<Entry>, i: nat, k: Text) returns (last: nat)
    requires i < |batch| && batch[i].channel == Some(k)
    ensures i <= last < |batch| && batch[last].channel == Some(k) && IsLast(batch, last, k)
    decreases |batch| - i
  {
    if IsLast(batch, i, k) {
      last := i;
    } else {
      var j :| i < j < |batch| && batch[j].channel == Some(k);
      last := LastEntry(batch, j, k);
    }
  }

  /** Conservation: the slices of a channel, put together, are the channel's text. */
  lemma SlicesConserve(batch: seq<Entry>, k: Text, texts: Text -> Text, omit: bool)
    requires exists i :: 0 <= i < |batch| && batch[i].channel == Some(k)
    ensures ChannelOutput(batch, |batch|, k, texts, omit) == texts(k)
  {
    var i :| 0 <= i < |batch| && batch[i].channel == Some(k);
    var last := LastEntry(batch, i, k);
    TakenAll(batch, |batch|, last, k, |texts(k)|, omit);
    OutputIsTaken(batch, |batch|, k, texts, omit);
  }

  /** When text is omitted, the first entry of a channel carries all of it and the others none. */
  lemma OmittedOnce(batch: seq<Entry>, i: nat, k: Text, texts: Text -> Text)
    requires i < |batch| && batch[i].channel == Some(k)
    ensures Slice(batch, i, texts, true) ==
            if exists j :: 0 <= j < i && batch[j].channel == Some(k) then [] else texts(k)
  {
    if j :| 0 <= j < i && batch[j].channel == Some(k) {
      TakenOmitted(batch, i, j, k, |texts(k)|);
    } else {
      TakenNothing(batch, i, k, |texts(k)|, true);
    }
  }

  lemma {:induction false} TakenOmitted(batch: seq<Entry>, n: nat, j: nat, k: Text, size: nat)
    requires j < n <= |batch| && batch[j].channel == Some(k)
    ensures Taken(batch, n, k, size, true) == size
  {
    if n > j + 1 {
      TakenOmitted(batch, n - 1, j, k, size);
    }
  }

  lemma {:induction false} TakenNothing(batch: seq<Entry>, n: nat, k: Text, size: nat, omit: bool)
    requires n <= |batch| && forall j :: 0 <= j < n ==> batch[j].channel != Some(k)
    ensures Taken(batch, n, k, size, omit) == 0
  {
    if n > 0 {
      TakenNothing(batch, n - 1, k, size, omit);
    }
  }

  // ---------------------------------------------------------------- what went in

  /** The text that was pushed for a channel with the buffered entries, in order. */
  function ChannelInput(batch: seq<Entry>, inputs: seq<Text>, k: Text): Text
    requires |inputs| == |batch|
  {
    if batch == [] then []
    else
      var n := |batch| - 1;
      ChannelInput(batch[..n], inputs[..n], k) + (if batch[n].channel == Some(k) then inputs[n] else [])
  }

  lemma ChannelInputAppend(batch: seq<Entry>, inputs: seq<Text>, entry: Entry, input: Text, k: Text)
    requires |inputs| == |batch|
    ensures ChannelInput(batch + [entry], inputs + [input], k) ==
            ChannelInput(batch, inputs, k) + if entry.channel == Some(k) then input else []
  {
    assert (batch + [entry])[..|batch|] == batch;
    assert (inputs + [input])[..|inputs|] == inputs;
  }

  function TotalLength(batch: seq<Entry>): nat {
    if batch == [] then 0 else TotalLength(batch[..|batch| - 1]) + batch[|batch| - 1].length
  }

  lemma TotalLengthAppend(batch: seq<Entry>, entry: Entry)
    ensures TotalLength(batch + [entry]) == TotalLength(batch) + entry.length
  {
    assert (batch + [entry])[..|batch|] == batch;
  }

  lemma {:induction false} TakenInputs(batch: seq<Entry>, inputs: seq<Text>, n: nat, k: Text)
    requires n <= |batch| == |inputs|
    requires forall i :: 0 <= i < |batch| && batch[i].channel == Some(k) ==> batch[i].length == |inputs[i]|
    requires forall i :: 0 <= i < n && batch[i].channel == Some(k) ==> !IsLast(batch, i, k)
    ensures var whole := ChannelInput(batch, inputs, k);
            Taken(batch, n, k, |whole|, false) == |ChannelInput(batch[..n], inputs[..n], k)| <= |whole|
  {
    InputPrefix(batch, inputs, n, k);
    if n > 0 {
      TakenInputs(batch, inputs, n - 1, k);
      assert batch[..n][..n - 1] == batch[..n - 1] && inputs[..n][..n - 1] == inputs[..n - 1];
    }
  }

  /** The input of the first entries is a prefix of the whole input. */
  lemma {:induction false} InputPrefix(batch: seq<Entry>, inputs: seq<Text>, n: nat, k: Text)
    requires n <= |batch| == |inputs|
    ensures ChannelInput(batch[..n], inputs[..n], k) <= ChannelInput(batch, inputs, k)
    decreases |batch|
  {
    var m := |batch| - 1;
    if n == |batch| {
      assert batch[..n] == batch && inputs[..n] == inputs;
    } else {
      InputPrefix(batch[..m], inputs[..m], n, k);
      assert batch[..m][..n] == batch[..n] && inputs[..m][..n] == inputs[..n];
    }
  }

  /** If redaction leaves a channel's text alone, every event gets back exactly its own text. */
  lemma UnredactedUnchanged(batch: seq<Entry>, inputs: seq<Text>, i: nat, k: Text, texts: Text -> Text)
    requires i < |batch| == |inputs| && batch[i].channel == Some(k)
    requires forall j :: 0 <= j < |batch| && batch[j].channel == Some(k) ==> batch[j].length == |inputs[j]|
    requires texts(k) == ChannelInput(batch, inputs, k)
    ensures Slice(batch, i, texts, false) == inputs[i]
  {
    var whole := texts(k);
    assert forall j :: 0 <= j < i && batch[j].channel == Some(k) ==> !IsLast(batch, j, k);
    TakenInputs(batch, inputs, i, k);
    var before, through := ChannelInput(batch[..i], inputs[..i], k), ChannelInput(batch[..i + 1], inputs[..i + 1], k);
    assert batch[..i + 1][..i] == batch[..i] && inputs[..i + 1][..i] == inputs[..i];
    assert through == before + inputs[i];
    InputPrefix(batch, inputs, i + 1, k);
    assert whole[..|through|] == through;
    if IsLast(batch, i, k) {
      NoMoreInput(batch, inputs, i + 1, k);
    }
    assert whole[|before|..|through|] == through[|before|..] == inputs[i];
  }

  lemma {:induction false} NoMoreInput(batch: seq<Entry>, inputs: seq<Text>, n: nat, k: Text)
    requires n <= |batch| == |inputs|
    requires forall j :: n <= j < |batch| ==> batch[j].channel != Some(k)
    ensures ChannelInput(batch[..n], inputs[..n], k) == ChannelInput(batch, inputs, k)
    decreases |batch|
  {
    var m := |batch| - 1;
    if n == |batch| {
      assert batch[..n] == batch && inputs[..n] == inputs;
    } else {
      NoMoreInput(batch[..m], inputs[..m], n, k);
      assert batch[..m][..n] == batch[..n] && inputs[..m][..n] == inputs[..n];
    }
  }
}
