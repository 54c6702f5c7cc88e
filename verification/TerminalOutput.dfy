/** Truncating a terminal's output for the agent (crates/acp_thread/src/terminal.rs). */
module TerminalOutput {
  import opened Options
  import opened Utf8

  /** The greatest character boundary at or before `i`. */
  function FloorBoundary(bs: seq<Byte>, i: nat): (j: nat)
    requires i <= |bs|
    ensures j <= i && IsCharBoundary(bs, j)
    ensures forall k :: j < k <= i ==> !IsCharBoundary(bs, k)
  {
    if IsCharBoundary(bs, i) then i else FloorBoundary(bs, i - 1)
  }

  /** The position of the last newline before `end`. */
  function LastNewline(bs: seq<Byte>, end: nat): (r: Option<nat>)
    requires end <= |bs|
    ensures r.Some? ==> r.value < end && bs[r.value] == LF && forall k :: r.value < k < end ==> bs[k] != LF
    ensures r.None? ==> forall k :: 0 <= k < end ==> bs[k] != LF
  {
    if end == 0 then None else if bs[end - 1] == LF then Some(end - 1) else LastNewline(bs, end - 1)
  }

  /** Where the content is cut: nowhere unless it exceeds the limit. */
  function Cut(content: seq<Byte>, limit: Option<nat>): (n: nat)
    ensures n <= |content|
  {
    if limit.None? || |content| <= limit.value then |content|
    else
      var end := FloorBoundary(content, limit.value);
      var newline := LastNewline(content, end);
      if newline.Some? then newline.value else end
  }

  predicate Exceeds(content: seq<Byte>, limit: Option<nat>) {
    limit.Some? && |content| > limit.value
  }

  datatype Response = Response(output: seq<Byte>, truncated: bool)
  datatype Saved = Saved(content: seq<Byte>, originalLen: nat)

  class Terminal {
    var content: seq<Byte>
    var output: Option<Saved>
    const limit: Option<nat>

    constructor (limit: Option<nat>)
      ensures this.limit == limit && content == [] && output == None
    {
      this.limit := limit;
      content, output := [], None;
    }

    /** The saved output, if any, is what truncation made of some earlier content. */
    ghost predicate SavedFrom(original: seq<Byte>)
      reads this
    {
      output == Some(Saved(original[..Cut(original, limit)], |original|))
    }

    method TruncatedOutput() returns (kept: seq<Byte>, originalLen: nat)
      ensures kept == content[..Cut(content, limit)] && originalLen == |content|
    {
      kept, originalLen := content, |content|;
      if limit.Some? && |kept| > limit.value {
        var endIx: nat := limit.value;
        while !IsCharBoundary(kept, endIx)
          invariant endIx <= limit.value
          invariant FloorBoundary(kept, endIx) == FloorBoundary(kept, limit.value)
          decreases endIx
        {
          endIx := endIx - 1;
        }
        var newline := LastNewline(kept, endIx);
        endIx := if newline.Some? then newline.value else endIx;
        kept := kept[..endIx];
      }
    }

    /** The command ends: its output is kept as it was shown. */
    method Finish()
      modifies this
      ensures content == old(content) && SavedFrom(old(content))
    {
      var kept, originalLen := TruncatedOutput();
      output := Some(Saved(kept, originalLen));
    }

    /** The flag is set exactly when the content it was taken from exceeded the limit. */
    method CurrentOutput(ghost original: seq<Byte>) returns (r: Response)
      requires if output.Some? then SavedFrom(original) else original == content
      ensures r.output == original[..Cut(original, limit)]
      ensures r.truncated <==> Exceeds(original, limit)
    {
      CutWithinLimit(original, limit);
      if output.Some? {
        r := Response(output.value.content, output.value.originalLen > |output.value.content|);
      } else {
        var kept, originalLen := TruncatedOutput();
        r := Response(kept, |kept| < originalLen);
      }
    }
  }

  lemma {:induction false} CutWithinLimit(content: seq<Byte>, limit: Option<nat>)
    ensures limit.Some? ==> Cut(content, limit) <= limit.value
    ensures Cut(content, limit) < |content| <==> Exceeds(content, limit)
  {
  }

  /** The loop backs up at most three bytes. */
  lemma {:induction false} BacksUpAtMostThree(content: seq<Byte>, limit: nat)
    requires Valid(content) && limit <= |content|
    ensures limit - FloorBoundary(content, limit) <= 3
  {
    var j := BoundaryIsNear(content, limit);
  }

  /**
   On valid text the result is a valid prefix, cut either just before the last newline that fits or,
   when no newline fits, as late as any valid prefix can be.
   */
  lemma {:induction false} TruncationIsValidAndLongest(content: seq<Byte>, limit: nat)
    requires Valid(content) && |content| > limit
    ensures var n, end := Cut(content, Some(limit)), FloorBoundary(content, limit);
            && n <= end <= limit && Valid(content[..n]) && Valid(content[..end])
            && (forall k :: end < k <= limit ==> !Valid(content[..k]))
            && (if LF in content[..end] then n < end && content[n] == LF && LF !in content[n + 1..end] else n == end)
  {
    var end := FloorBoundary(content, limit);
    var n := Cut(content, Some(limit));
    if LastNewline(content, end).Some? {
      assert content[..end][n] == LF;
    }
    BoundaryCutsValidly(content, n);
    BoundaryCutsValidly(content, end);
    forall k | end < k <= limit ensures !Valid(content[..k]) {
      BoundaryCutsValidly(content, k);
    }
  }

  lemma {:induction false} FloorBoundaryLocal(a: seq<Byte>, b: seq<Byte>, i: nat)
    requires i < |a| && a <= b
    ensures FloorBoundary(a, i) == FloorBoundary(b, i)
  {
    if !IsCharBoundary(a, i) {
      FloorBoundaryLocal(a, b, i - 1);
    }
  }

  lemma {:induction false} LastNewlineLocal(a: seq<Byte>, b: seq<Byte>, end: nat)
    requires end <= |a| && a <= b
    ensures LastNewline(a, end) == LastNewline(b, end)
  {
    if end > 0 && a[end - 1] != LF {
      LastNewlineLocal(a, b, end - 1);
    }
  }

  /** Once the limit is exceeded, nothing the command still prints changes what is shown. */
  lemma {:induction false} TruncatedOutputIsFrozen(content: seq<Byte>, more: seq<Byte>, limit: Option<nat>)
    requires Exceeds(content, limit)
    ensures Exceeds(content + more, limit)
    ensures (content + more)[..Cut(content + more, limit)] == content[..Cut(content, limit)]
  {
    FloorBoundaryLocal(content, content + more, limit.value);
    LastNewlineLocal(content, content + more, FloorBoundary(content, limit.value));
  }
}
