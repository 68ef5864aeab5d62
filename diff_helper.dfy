/**
 * The diff-to-markup serializer of utils/diffHelper.ts.
 *
 * The word-level diff library hands over an ordered list of chunks; the
 * serializer folds it into one annotated string: an unchanged chunk is
 * copied verbatim, an added chunk is wrapped in a highlighting `<mark>` tag
 * and a removed chunk in a strike-through `<del>` tag. Chunk values are
 * never escaped.
 */
module DiffHelper {

  /** One entry of the change list (the `DiffChunk` record of types.ts). */
  datatype Chunk = Chunk(value: string, added: bool, removed: bool)

  /** The word-diff library call, which is not part of this model: old and new text in, chunks out. */
  type WordDiff = (string, string) -> seq<Chunk>

  /** The class list on the `<mark>` wrapper of an added chunk. */
  const MarkClass: string := "bg-yellow-200 text-yellow-900 rounded px-0.5"
  /**
   * The class list on the `<del>` wrapper of a removed chunk. It is the one
   * literal of the source, written as two pieces so the solver can reason
   * about its characters; the concatenation is that literal.
   */
  const DelClass: string := "bg-red-100 text-red-900 rounded px-0.5" + " decoration-red-500"

  const MarkOpen: string := "<mark class=\"" + MarkClass + "\">"
  const MarkClose: string := "</mark>"
  const DelOpen: string := "<del class=\"" + DelClass + "\">"
  const DelClose: string := "</del>"

  /** Characters a `<mark>…</mark>` wrapper adds around its value. */
  const MarkOverhead: nat := 66
  /** Characters a `<del>…</del>` wrapper adds around its value. */
  const DelOverhead: nat := 77

  /** What one chunk contributes to the output; `added` is tested before `removed`. */
  function RenderChunk(c: Chunk): string
  {
    if c.added then MarkOpen + c.value + MarkClose
    else if c.removed then DelOpen + c.value + DelClose
    else c.value
  }

  /** Total length of the chunk values. */
  function ValueLength(chunks: seq<Chunk>): nat
  {
    if chunks == [] then 0 else |chunks[0].value| + ValueLength(chunks[1..])
  }

  /** Number of chunks rendered as `<mark>`: every added chunk. */
  function MarkedCount(chunks: seq<Chunk>): nat
  {
    if chunks == [] then 0 else (if chunks[0].added then 1 else 0) + MarkedCount(chunks[1..])
  }

  /** Number of chunks rendered as `<del>`: removed and not also added. */
  function StruckCount(chunks: seq<Chunk>): nat
  {
    if chunks == [] then 0
    else (if chunks[0].removed && !chunks[0].added then 1 else 0) + StruckCount(chunks[1..])
  }

  /** The annotated string for a change list: the chunks' contributions, in order. */
  function Render(chunks: seq<Chunk>): string
  {
    if chunks == [] then "" else RenderChunk(chunks[0]) + Render(chunks[1..])
  }

  /**
   * The output is as long as the values together, plus a fixed overhead for
   * each marked and each struck chunk.
   */
  lemma {:induction false} RenderLength(chunks: seq<Chunk>)
    ensures |Render(chunks)| == ValueLength(chunks) + MarkOverhead * MarkedCount(chunks) + DelOverhead * StruckCount(chunks)
  {
    if chunks != [] {
      RenderLength(chunks[1..]);
    }
  }

  /** The old text the chunks stand for: every value except the added ones. */
  function OldText(chunks: seq<Chunk>): (r: string)
    ensures |r| <= ValueLength(chunks)
  {
    if chunks == [] then ""
    else (if chunks[0].added then "" else chunks[0].value) + OldText(chunks[1..])
  }

  /** The new text the chunks stand for: every value except the removed ones. */
  function NewText(chunks: seq<Chunk>): (r: string)
    ensures |r| <= ValueLength(chunks)
  {
    if chunks == [] then ""
    else (if chunks[0].removed then "" else chunks[0].value) + NewText(chunks[1..])
  }

  /**
   * The promise a word diff keeps: dropping the added chunks gives back the
   * old text, dropping the removed chunks gives back the new text.
   */
  predicate IsWordDiffOf(chunks: seq<Chunk>, oldText: string, newText: string)
  {
    OldText(chunks) == oldText && NewText(chunks) == newText
  }

  /** Rendering distributes over concatenation of change lists. */
  lemma {:induction false} RenderAppend(a: seq<Chunk>, b: seq<Chunk>)
    ensures Render(a + b) == Render(a) + Render(b)
  {
    if a == [] {
      assert a + b == b;
    } else {
      assert (a + b)[0] == a[0];
      assert (a + b)[1..] == a[1..] + b;
      RenderAppend(a[1..], b);
    }
  }

  /** Rendering `c` between two change lists, by unfolding the single chunk. */
  lemma RenderSplice(before: seq<Chunk>, c: Chunk, after: seq<Chunk>)
    ensures Render(before + [c] + after) == Render(before) + RenderChunk(c) + Render(after)
  {
    var tail := [c] + after;
    assert tail[0] == c && tail[1..] == after;
    assert Render(tail) == RenderChunk(c) + Render(after);
    assert before + [c] + after == before + tail;
    RenderAppend(before, tail);
  }

  /** An unchanged chunk contributes exactly its value, unescaped. */
  lemma UnchangedPassesThrough(before: seq<Chunk>, c: Chunk, after: seq<Chunk>)
    requires !c.added && !c.removed
    ensures Render(before + [c] + after) == Render(before) + c.value + Render(after)
  {
    RenderSplice(before, c, after);
  }

  /** An added chunk (whether or not it is also flagged removed) is wrapped in the yellow `<mark>`. */
  lemma AddedIsMarked(before: seq<Chunk>, c: Chunk, after: seq<Chunk>)
    requires c.added
    ensures Render(before + [c] + after)
         == Render(before)
            + ("<mark class=\"" + "bg-yellow-200 text-yellow-900 rounded px-0.5" + "\">" + c.value + "</mark>")
            + Render(after)
  {
    RenderSplice(before, c, after);
  }

  /**
   * A removed chunk that is not also added is wrapped in the red `<del>`. The
   * class list is spelled in the same two pieces as `DelClass`.
   */
  lemma RemovedIsStruck(before: seq<Chunk>, c: Chunk, after: seq<Chunk>)
    requires c.removed && !c.added
    ensures Render(before + [c] + after)
         == Render(before)
            + ("<del class=\"" + ("bg-red-100 text-red-900 rounded px-0.5" + " decoration-red-500") + "\">" + c.value + "</del>")
            + Render(after)
  {
    RenderSplice(before, c, after);
  }

  /**
   * With no added or removed chunk the output is the plain concatenation of
   * the values, which is then both the old and the new text, with no wrapper.
   */
  lemma {:induction false} UnchangedOnlyIsPlainText(chunks: seq<Chunk>)
    requires forall i :: 0 <= i < |chunks| ==> !chunks[i].added && !chunks[i].removed
    ensures Render(chunks) == OldText(chunks) == NewText(chunks)
    ensures MarkedCount(chunks) == 0 && StruckCount(chunks) == 0
  {
    if chunks != [] {
      UnchangedOnlyIsPlainText(chunks[1..]);
    }
  }

  /**
   * `computeMarkdownDiff`: ask the word diff for the change list, then append
   * each chunk's contribution to an accumulator, first to last.
   */
  method ComputeMarkdownDiff(oldText: string, newText: string, diffWords: WordDiff) returns (result: string)
    ensures result == Render(diffWords(oldText, newText))
  {
    var changes := diffWords(oldText, newText);
    result := "";
    for i := 0 to |changes|
      invariant result == Render(changes[..i])
    {
      var part := changes[i];
      var value := part.value;
      if part.added {
        result := result + (MarkOpen + value + MarkClose);
      } else if part.removed {
        result := result + (DelOpen + value + DelClose);
      } else {
        result := result + value;
      }
      assert changes[..i + 1] == changes[..i] + [part];
      assert Render([part]) == RenderChunk(part) + Render([]);
      RenderAppend(changes[..i], [part]);
    }
    assert changes[..|changes|] == changes;
  }
}
