/**
 * The string and state logic of the editor component in App.tsx: the guard
 * that hides the diff when either side is empty, the class-attribute
 * stripper used before copying the diff, and the handlers that update the
 * component's six state fields.
 */
module MarkDiffApp {
  import opened DiffHelper

  datatype Option<T> = None | Some(value: T)

  /** The two tabs of the page. */
  datatype Tab = Edit | Diff

  /** How the AI rewrite request ends: the improved text, or the thrown error's message ("" when it has none). */
  datatype Outcome = Improved(text: string) | Failed(message: string)

  const DefaultText: string :=
    "# E-Rechnung für Freelancer 2025\n\n**Wichtige Erkenntnisse:**\n"
    + "Ab 1. Januar 2025 müssen Freelancer im B2B-Bereich E-Rechnungen empfangen können.\n\n"
    + "*   Versand bleibt freiwillig bis Ende 2026.\n*   B2C sind ausgenommen.\n"
    + "*   XRechnung und ZUGFeRD sind die Standards.\n\nNutzen Sie die Übergangsfrist!"

  const FallbackError: string := "Failed to generate improvements."

  // ---------------------------------------------------------------------
  // The diff shown in the preview tab
  // ---------------------------------------------------------------------

  /**
   * `diffContent`: no diff at all while either side is empty (the empty
   * string is falsy), otherwise the rendered word diff of the two sides.
   */
  function DiffContent(originalText: string, modifiedText: string, diffWords: WordDiff): (r: string)
    ensures r != "" ==> originalText != "" && modifiedText != ""
  {
    if originalText == "" || modifiedText == "" then ""
    else Render(diffWords(originalText, modifiedText))
  }

  /**
   * When the word diff keeps its promise, the diff is empty exactly when one
   * of the two sides is empty.
   */
  lemma DiffShownIffBothSidesNonEmpty(originalText: string, modifiedText: string, diffWords: WordDiff)
    requires IsWordDiffOf(diffWords(originalText, modifiedText), originalText, modifiedText)
    ensures DiffContent(originalText, modifiedText, diffWords) == "" <==> (originalText == "" || modifiedText == "")
  {
    var chunks := diffWords(originalText, modifiedText);
    RenderLength(chunks);
  }

  // ---------------------------------------------------------------------
  // The class-attribute stripper: replace(/ class="[^"]*"/g, '')
  // ---------------------------------------------------------------------

  /** The fixed start of every match of the pattern. */
  const ClassAttrPrefix: string := " class=\""

  /** Position of the first double quote in `s`. */
  function IndexOfQuote(s: string): (i: nat)
    requires '"' in s
    ensures i < |s| && s[i] == '"' && '"' !in s[..i]
  {
    if s[0] == '"' then 0
    else
      assert '"' in s[1..] by { var k :| 0 <= k < |s| && s[k] == '"'; assert s[1..][k - 1] == '"'; }
      var j := IndexOfQuote(s[1..]);
      assert s[..j + 1] == [s[0]] + s[1..][..j];
      j + 1
  }

  /**
   * Global, left-to-right removal of every match of ` class="` followed by
   * non-quote characters and a closing quote. After a match the scan goes on
   * behind it (the removed text is not scanned again); where no match
   * starts, one character is kept and the scan moves one position on.
   */
  function StripClassAttributes(s: string): (r: string)
    ensures |r| <= |s|
    decreases |s|
  {
    if s == [] then []
    else if ClassAttrPrefix <= s && '"' in s[|ClassAttrPrefix|..] then
      var rest := s[|ClassAttrPrefix|..];
      StripClassAttributes(rest[IndexOfQuote(rest) + 1..])
    else [s[0]] + StripClassAttributes(s[1..])
  }

  /** Some position of `s` starts with ` class="`. */
  predicate HasClassAttr(s: string)
    decreases |s|
  {
    s != [] && (ClassAttrPrefix <= s || HasClassAttr(s[1..]))
  }

  /** No double quote among the first seven characters of `t`. */
  predicate QuoteFreeHead(t: string)
  {
    forall j :: 0 <= j < |t| && j < 7 ==> t[j] != '"'
  }

  /** A string in which ` class="` never occurs comes out of the stripper unchanged. */
  lemma {:induction false} StripIdentityWithoutClassAttr(s: string)
    requires !HasClassAttr(s)
    ensures StripClassAttributes(s) == s
  {
    if s != [] {
      StripIdentityWithoutClassAttr(s[1..]);
      assert [s[0]] + s[1..] == s;
    }
  }

  /**
   * Text without a double quote, followed by text whose first seven
   * characters hold none, cannot hold the start of a match: the stripper
   * keeps it and goes on with the rest.
   */
  lemma {:induction false} StripKeepsQuoteFreePrefix(q: string, t: string)
    requires '"' !in q
    requires QuoteFreeHead(t)
    ensures StripClassAttributes(q + t) == q + StripClassAttributes(t)
  {
    if q == [] {
      assert q + t == t;
    } else {
      var s := q + t;
      if |s| >= 8 {
        if 7 < |q| {
          assert s[7] == q[7];
        } else {
          assert s[7] == t[7 - |q|];
        }
      }
      assert ClassAttrPrefix[7] == '"';
      assert !(ClassAttrPrefix <= s);
      assert s[1..] == q[1..] + t;
      StripKeepsQuoteFreePrefix(q[1..], t);
    }
  }

  /** The first quote after quote-free text `w` is the one that follows it. */
  lemma {:induction false} IndexOfQuoteAfter(w: string, v: string)
    requires '"' !in w
    ensures IndexOfQuote(w + "\"" + v) == |w|
  {
    if w != [] {
      var s := w + "\"" + v;
      assert s[0] == w[0];
      assert s[1..] == w[1..] + "\"" + v;
      IndexOfQuoteAfter(w[1..], v);
    }
  }

  /** A match at the front is removed whole, and the scan goes on behind it. */
  lemma StripRemovesClassAttr(w: string, v: string)
    requires '"' !in w
    ensures StripClassAttributes(ClassAttrPrefix + w + "\"" + v) == StripClassAttributes(v)
  {
    var s := ClassAttrPrefix + w + "\"" + v;
    var rest := w + "\"" + v;
    assert s[|ClassAttrPrefix|..] == rest;
    assert rest[|w|] == '"';
    IndexOfQuoteAfter(w, v);
    assert rest[|w| + 1..] == v;
  }

  /** Every value of the change list is free of double quotes. */
  predicate QuoteFreeValues(chunks: seq<Chunk>)
  {
    forall i :: 0 <= i < |chunks| ==> '"' !in chunks[i].value
  }

  /** The rendering with bare `<mark>` and `<del>` opening tags, as the copied diff should read. */
  function RenderBare(chunks: seq<Chunk>): string
  {
    if chunks == [] then ""
    else
      var c := chunks[0];
      (if c.added then "<mark>" + c.value + "</mark>"
       else if c.removed then "<del>" + c.value + "</del>"
       else c.value)
      + RenderBare(chunks[1..])
  }

  /** With quote-free values, the rendering never has a quote in its first seven characters. */
  lemma {:induction false} RenderQuoteFreeHead(chunks: seq<Chunk>)
    requires QuoteFreeValues(chunks)
    ensures QuoteFreeHead(Render(chunks))
  {
    if chunks != [] {
      var c := chunks[0];
      var tail := Render(chunks[1..]);
      RenderQuoteFreeHead(chunks[1..]);
      if !c.added && !c.removed {
        assert Render(chunks) == c.value + tail;
        assert '"' !in c.value by { assert c == chunks[0]; }
        forall j | 0 <= j < |c.value + tail| && j < 7
          ensures (c.value + tail)[j] != '"'
        {
          if j < |c.value| {
            assert (c.value + tail)[j] == c.value[j];
          } else {
            assert (c.value + tail)[j] == tail[j - |c.value|];
            assert tail[j - |c.value|] != '"';
          }
        }
      }
    }
  }

  /** Stripping a styled opening tag keeps the tag name and drops its class attribute. */
  lemma StripClassOfTag(name: string, cls: string, rest: string)
    requires '"' !in name && '"' !in cls
    ensures StripClassAttributes(name + ClassAttrPrefix + cls + "\"" + rest)
         == name + StripClassAttributes(rest)
  {
    var t0 := ClassAttrPrefix + cls + "\"" + rest;
    assert name + ClassAttrPrefix + cls + "\"" + rest == name + t0;
    assert QuoteFreeHead(t0) by {
      forall j | 0 <= j < |t0| && j < 7 ensures t0[j] != '"' {
        assert t0[j] == ClassAttrPrefix[j];
      }
    }
    StripKeepsQuoteFreePrefix(name, t0);
    StripRemovesClassAttr(cls, rest);
  }

  /**
   * A styled span in front of a rendering: the class attribute goes, the
   * rest of the span is kept, and the scan goes on into the rendering.
   */
  lemma StripStyledSpan(name: string, cls: string, v: string, close: string, tail: string)
    requires '"' !in name && '"' !in cls && '"' !in v && '"' !in close
    requires QuoteFreeHead(tail)
    ensures StripClassAttributes(name + ClassAttrPrefix + cls + "\"" + (">" + v + close + tail))
         == name + (">" + v + close) + StripClassAttributes(tail)
  {
    StripClassOfTag(name, cls, ">" + v + close + tail);
    assert '"' !in ">" + v + close;
    StripKeepsQuoteFreePrefix(">" + v + close, tail);
  }

  /**
   * A styled span `name class="cls">v close` in front of a rendering: the
   * class attribute goes, the rest of the span is kept, and the scan goes on
   * into the rendering.
   */
  lemma StripSpan(open: string, name: string, cls: string, v: string, close: string, tail: string)
    requires open == name + ClassAttrPrefix + cls + "\">"
    requires '"' !in name && '"' !in cls && '"' !in v && '"' !in close
    requires QuoteFreeHead(tail)
    ensures StripClassAttributes((open + v + close) + tail)
         == (name + ">" + v + close) + StripClassAttributes(tail)
  {
    RegroupSpan(name + ClassAttrPrefix + cls, v, close, tail);
    StripStyledSpan(name, cls, v, close, tail);
    RegroupBare(name, v, close);
  }

  /**
   * Moving the closing quote of a rendered opening tag to the front. Kept
   * apart from `StripSpan` so that each proof stays small for the solver.
   */
  lemma RegroupSpan(attr: string, v: string, close: string, tail: string)
    ensures (attr + "\">" + v + close) + tail == attr + "\"" + (">" + v + close + tail)
  {
    assert "\">" == "\"" + ">";
  }

  /** Regrouping a stripped span; kept apart from `StripSpan` for the same reason. */
  lemma RegroupBare(name: string, v: string, close: string)
    ensures name + (">" + v + close) == name + ">" + v + close
  {
  }

  /** The pieces of the `<mark>` wrapper. */
  lemma MarkTagParts()
    ensures MarkOpen == "<mark" + ClassAttrPrefix + MarkClass + "\">"
    ensures '"' !in "<mark" && '"' !in MarkClass && '"' !in MarkClose
    ensures "<mark" + ">" == "<mark>" && MarkClose == "</mark>"
  {
    assert "<mark class=\"" == "<mark" + ClassAttrPrefix;
  }

  /** The pieces of the `<del>` wrapper. */
  lemma DelTagParts()
    ensures DelOpen == "<del" + ClassAttrPrefix + DelClass + "\">"
    ensures '"' !in "<del" && '"' !in DelClass && '"' !in DelClose
    ensures "<del" + ">" == "<del>" && DelClose == "</del>"
  {
    assert "<del class=\"" == "<del" + ClassAttrPrefix;
  }

  /**
   * Copy format: when no value holds a double quote, stripping the rendered
   * diff gives the same rendering with bare `<mark>`/`<del>` opening tags.
   */
  lemma {:induction false} StrippedRenderIsBare(chunks: seq<Chunk>)
    requires QuoteFreeValues(chunks)
    ensures StripClassAttributes(Render(chunks)) == RenderBare(chunks)
  {
    if chunks != [] {
      var c := chunks[0];
      var tail := Render(chunks[1..]);
      assert '"' !in c.value by { assert c == chunks[0]; }
      assert QuoteFreeValues(chunks[1..]) by {
        forall i | 0 <= i < |chunks[1..]| ensures '"' !in chunks[1..][i].value {
          assert chunks[1..][i] == chunks[i + 1];
        }
      }
      StrippedRenderIsBare(chunks[1..]);
      RenderQuoteFreeHead(chunks[1..]);
      if c.added {
        MarkTagParts();
        StripSpan(MarkOpen, "<mark", MarkClass, c.value, MarkClose, tail);
      } else if c.removed {
        DelTagParts();
        StripSpan(DelOpen, "<del", DelClass, c.value, DelClose, tail);
      } else {
        StripKeepsQuoteFreePrefix(c.value, tail);
      }
    }
  }

  /**
   * What "Copy Diff" puts on the clipboard: nothing while a side is empty,
   * otherwise (for quote-free values) the diff with bare opening tags.
   */
  lemma CopiedDiffIsBare(originalText: string, modifiedText: string, diffWords: WordDiff)
    requires QuoteFreeValues(diffWords(originalText, modifiedText))
    ensures StripClassAttributes(DiffContent(originalText, modifiedText, diffWords))
         == if originalText == "" || modifiedText == "" then ""
            else RenderBare(diffWords(originalText, modifiedText))
  {
    StrippedRenderIsBare(diffWords(originalText, modifiedText));
  }

  /**
   * A faithful word diff of two quote-free texts, whose chunks are never
   * flagged both added and removed, only hands out quote-free values: every
   * value is a piece of the old or of the new text.
   */
  lemma {:induction false} QuoteFreeTextsGiveQuoteFreeValues(chunks: seq<Chunk>, oldText: string, newText: string)
    requires IsWordDiffOf(chunks, oldText, newText)
    requires forall i :: 0 <= i < |chunks| ==> !(chunks[i].added && chunks[i].removed)
    requires '"' !in oldText && '"' !in newText
    ensures QuoteFreeValues(chunks)
  {
    if chunks != [] {
      var c, rest := chunks[0], chunks[1..];
      assert OldText(chunks) == (if c.added then "" else c.value) + OldText(rest);
      assert NewText(chunks) == (if c.removed then "" else c.value) + NewText(rest);
      assert '"' !in c.value;
      forall i | 0 <= i < |rest|
        ensures !(rest[i].added && rest[i].removed)
      {
        assert rest[i] == chunks[i + 1];
      }
      QuoteFreeTextsGiveQuoteFreeValues(rest, OldText(rest), NewText(rest));
      forall i | 0 <= i < |chunks|
        ensures '"' !in chunks[i].value
      {
        if i > 0 {
          assert chunks[i] == rest[i - 1];
        }
      }
    }
  }

  /**
   * Copying the diff of two quote-free texts, when the word diff keeps its
   * promise, hands the clipboard the bare-tag rendering, or `""` when a side
   * is empty.
   */
  lemma CopiedDiffOfQuoteFreeTextsIsBare(originalText: string, modifiedText: string, diffWords: WordDiff)
    requires IsWordDiffOf(diffWords(originalText, modifiedText), originalText, modifiedText)
    requires forall i :: 0 <= i < |diffWords(originalText, modifiedText)| ==>
               !(diffWords(originalText, modifiedText)[i].added && diffWords(originalText, modifiedText)[i].removed)
    requires '"' !in originalText && '"' !in modifiedText
    ensures StripClassAttributes(DiffContent(originalText, modifiedText, diffWords))
         == if originalText == "" || modifiedText == "" then ""
            else RenderBare(diffWords(originalText, modifiedText))
  {
    QuoteFreeTextsGiveQuoteFreeValues(diffWords(originalText, modifiedText), originalText, modifiedText);
    CopiedDiffIsBare(originalText, modifiedText, diffWords);
  }

  // ---------------------------------------------------------------------
  // Component state and handlers
  // ---------------------------------------------------------------------

  /** The state of the editor component and the handlers that update it. */
  class App {
    var originalText: string
    var modifiedText: string
    var isProcessing: bool
    var error: Option<string>
    var activeTab: Tab
    var copySuccess: bool

    /**
     * While a rewrite is in flight no error is shown (it was cleared when
     * the request started), and a shown error is never the empty string.
     */
    ghost predicate Valid()
      reads this
    {
      && (isProcessing ==> error == None)
      && (error.Some? ==> error.value != "")
    }

    /** Initial state: both sides hold the sample text, the editor tab is open. */
    constructor ()
      ensures Valid()
      ensures originalText == DefaultText && modifiedText == DefaultText
      ensures !isProcessing && error == None && activeTab == Edit && !copySuccess
    {
      originalText := DefaultText;
      modifiedText := DefaultText;
      isProcessing := false;
      error := None;
      activeTab := Edit;
      copySuccess := false;
    }

    /** Typing into the original text area. */
    method EditOriginal(text: string)
      requires Valid()
      modifies this`originalText
      ensures Valid() && originalText == text
    {
      originalText := text;
    }

    /** Typing into the modified text area. */
    method EditModified(text: string)
      requires Valid()
      modifies this`modifiedText
      ensures Valid() && modifiedText == text
    {
      modifiedText := text;
    }

    /** Clicking one of the two tab buttons. */
    method SelectTab(tab: Tab)
      requires Valid()
      modifies this`activeTab
      ensures Valid() && activeTab == tab
    {
      activeTab := tab;
    }

    /**
     * Clicking "AI Auto-Fix". The button is disabled while a request is in
     * flight, so such a click changes nothing and sends nothing; otherwise
     * the component turns busy, clears the error and sends the original text.
     */
    method StartAutoImprove() returns (request: Option<string>)
      requires Valid()
      modifies this`isProcessing, this`error
      ensures Valid() && isProcessing
      ensures old(isProcessing) ==> request == None && error == old(error)
      ensures !old(isProcessing) ==> request == Some(originalText) && error == None
    {
      if isProcessing {
        request := None;
      } else {
        isProcessing := true;
        error := None;
        request := Some(originalText);
      }
    }

    /**
     * The rewrite request settles. On success the improved text replaces the
     * modified side and the diff tab opens; on failure the error message is
     * shown (a fixed message when it has none). Either way the component
     * is idle afterwards.
     */
    method FinishAutoImprove(outcome: Outcome)
      requires Valid() && isProcessing
      modifies this`modifiedText, this`activeTab, this`error, this`isProcessing
      ensures Valid() && !isProcessing
      ensures outcome.Improved? ==> modifiedText == outcome.text && activeTab == Diff && error == None
      ensures outcome.Failed? ==>
                && modifiedText == old(modifiedText) && activeTab == old(activeTab)
                && error == Some(if outcome.message == "" then FallbackError else outcome.message)
    {
      match outcome {
        case Improved(improved) =>
          modifiedText := improved;
          activeTab := Diff;
        case Failed(message) =>
          error := Some(if message == "" then FallbackError else message);
      }
      isProcessing := false;
    }

    /** "Copy Original": the modified side becomes a copy of the original side. */
    method CopyToModified()
      requires Valid()
      modifies this`modifiedText
      ensures Valid() && modifiedText == originalText
    {
      modifiedText := originalText;
    }

    /**
     * "Copy Diff": nothing happens while the diff is empty. Otherwise the
     * diff with its class attributes stripped is handed to the clipboard,
     * and the success flag is raised when the clipboard accepts it.
     */
    method CopyDiff(diffWords: WordDiff, clipboardAccepts: bool) returns (clipboardText: Option<string>)
      requires Valid()
      modifies this`copySuccess
      ensures Valid()
      ensures DiffContent(originalText, modifiedText, diffWords) == "" ==>
                clipboardText == None && copySuccess == old(copySuccess)
      ensures DiffContent(originalText, modifiedText, diffWords) != "" ==>
                && clipboardText == Some(StripClassAttributes(DiffContent(originalText, modifiedText, diffWords)))
                && copySuccess == (old(copySuccess) || clipboardAccepts)
    {
      var content := "";
      if originalText != "" && modifiedText != "" {
        content := ComputeMarkdownDiff(originalText, modifiedText, diffWords);
      }
      if content == "" {
        clipboardText := None;
      } else {
        clipboardText := Some(StripClassAttributes(content));
        if clipboardAccepts {
          copySuccess := true;
        }
      }
    }
  }
}
