/** The markdown editor's toolbar: splicing markup around the textarea's
    selection, the table of toolbar actions, and the preview and mobile
    state cells. */
module MarkdownEditor {
  import opened Domain
  import opened Text
  import opened Seqs

  /** The textarea's `selectionStart` and `selectionEnd`. */
  datatype Selection = Selection(start: int, end: int)

  /** What `insertMarkdown` hands on: the new value for `onChange` and the
      position the cursor is moved to. */
  datatype Edit = Edit(newValue: string, cursor: int)

  /** `selectedText || placeholder`. */
  function Replacement(value: string, start: int, end: int, placeholder: string): (r: string)
    ensures 0 <= start < end <= |value| ==> r == value[start..end]
    ensures 0 <= start == end <= |value| ==> r == placeholder
    ensures r == placeholder || (r != [] && |r| <= |value|)
  {
    var selected := Substring(value, start, end);
    if selected != [] then selected else placeholder
  }

  /** `insertMarkdown(before, after = "", placeholder = "text")`. Without a
      textarea in the document nothing happens. */
  function InsertMarkdown(value: string, textarea: Option<Selection>, before: string, after: Option<string>, placeholder: Option<string>): (r: Option<Edit>)
    ensures r.None? <==> textarea.None?
    ensures r.Some? ==>
      var start, end := textarea.value.start, textarea.value.end;
      var rep := Replacement(value, start, end, placeholder.GetOr("text"));
      && r.value.newValue == Substring(value, 0, start) + before + rep + after.GetOr("") + Substring(value, end, |value|)
      && r.value.cursor == start + |before| + |rep| + |after.GetOr("")|
  {
    if textarea.None? then None
    else
      var start, end := textarea.value.start, textarea.value.end;
      var rep := Replacement(value, start, end, placeholder.GetOr("text"));
      var suffix := after.GetOr("");
      Some(Edit(Substring(value, 0, start) + before + rep + suffix + Substring(value, end, |value|),
                start + |before| + |rep| + |suffix|))
  }

  /** For a selection inside the text the clamping of `substring` does not
      come into play: the new value is the text up to the selection, the
      block, and the text after it. */
  lemma InsertedValue(value: string, start: int, end: int, before: string, after: string, placeholder: string)
    requires 0 <= start <= end <= |value|
    ensures var e := InsertMarkdown(value, Some(Selection(start, end)), before, Some(after), Some(placeholder)).value;
      var rep := Replacement(value, start, end, placeholder);
      && e.newValue == value[..start] + (before + rep + after) + value[end..]
      && e.cursor == start + |before| + |rep| + |after|
  {
    assert Substring(value, 0, start) == value[..start];
  }

  /** For a selection inside the text: the text before the selection and
      after it are kept as prefix and suffix, the block `before + rep +
      after` sits between them, the length changes by the block minus the
      selection, and the cursor lands just after the block. */
  lemma InsertMarkdownFrame(value: string, start: int, end: int, before: string, after: string, placeholder: string)
    requires 0 <= start <= end <= |value|
    ensures var e := InsertMarkdown(value, Some(Selection(start, end)), before, Some(after), Some(placeholder)).value;
      var rep := Replacement(value, start, end, placeholder);
      && |e.newValue| == |value| - (end - start) + |before| + |rep| + |after|
      && start <= e.cursor <= |e.newValue|
      && e.newValue[..start] == value[..start]
      && e.newValue[start..e.cursor] == before + rep + after
      && e.newValue[e.cursor..] == value[end..]
  {
    InsertedValue(value, start, end, before, after, placeholder);
    var rep := Replacement(value, start, end, placeholder);
    SpliceParts(value[..start], before + rep + after, value[end..]);
  }

  /** The pieces of `p + m + q`, cut at their lengths. */
  lemma SpliceParts(p: string, m: string, q: string)
    ensures var w := p + m + q;
      && w[..|p|] == p && w[|p|..|p| + |m|] == m && w[|p| + |m|..] == q
  {
    var w := p + m + q;
    assert w[..|p|] == p;
    assert w[|p|..|p| + |m|] == m;
    assert w[|p| + |m|..] == q;
  }

  /** Cutting the markup `b` and `a` back out of `w == p + (b + m + a) + q`,
      where the block starts at `k` and ends at `c`. */
  lemma CutMarkup(p: string, b: string, m: string, a: string, q: string, w: string, k: int, c: int)
    requires w == p + (b + m + a) + q && k == |p| && c == |p| + |b| + |m| + |a|
    ensures k + |b| <= c - |a|
    ensures w[..k] + w[k + |b|..c - |a|] + w[c..] == p + m + q
  {
    assert w == p + b + m + a + q;
    assert w[..k] == p;
    assert w[k + |b|..c - |a|] == m;
    assert w[c..] == q;
  }

  /** Wrapping a non-empty selection keeps the selected text: cutting the
      markup back out of the new value gives the old value. */
  lemma UnwrapRestores(value: string, start: int, end: int, before: string, after: string, placeholder: string)
    requires 0 <= start < end <= |value|
    ensures var e := InsertMarkdown(value, Some(Selection(start, end)), before, Some(after), Some(placeholder)).value;
      && start + |before| <= e.cursor - |after|
      && e.newValue[..start] + e.newValue[start + |before|..e.cursor - |after|] + e.newValue[e.cursor..] == value
  {
    var e := InsertMarkdown(value, Some(Selection(start, end)), before, Some(after), Some(placeholder)).value;
    var p, m, q := value[..start], value[start..end], value[end..];
    InsertedValue(value, start, end, before, after, placeholder);
    assert e.newValue == p + (before + m + after) + q && e.cursor == |p| + |before| + |m| + |after|;
    CutMarkup(p, before, m, after, q, e.newValue, start, e.cursor);
    ThreeParts(value, start, end);
  }

  lemma ThreeParts(s: string, i: int, j: int)
    requires 0 <= i <= j <= |s|
    ensures s[..i] + s[i..j] + s[j..] == s
  {
    assert s[..i] + s[i..j] == s[..j];
  }

  /** Inserting nothing, at any caret position, even one outside the text,
      leaves the value as it is. */
  lemma EmptyInsertKeepsValue(value: string, caret: int)
    ensures InsertMarkdown(value, Some(Selection(caret, caret)), "", Some(""), Some("")).value.newValue == value
  {
    assert Replacement(value, caret, caret, "") == "";
    SubstringSplit(value, caret);
  }

  /** One toolbar button: its tooltip and the arguments it passes. */
  datatype ToolbarAction = ToolbarAction(tooltip: string, before: string, after: string, placeholder: string)

  /** `toolbarActions`, in order. */
  function ToolbarActions(): (r: seq<ToolbarAction>)
    ensures |r| == 9
    ensures forall a :: a in r ==> a.before != "" && a.placeholder != ""
  {
    [ ToolbarAction("Heading 1", "# ", "", "Heading 1"),
      ToolbarAction("Heading 2", "## ", "", "Heading 2"),
      ToolbarAction("Bold", "**", "**", "bold text"),
      ToolbarAction("Italic", "*", "*", "italic text"),
      ToolbarAction("Inline Code", "`", "`", "code"),
      ToolbarAction("Unordered List", "- ", "", "list item"),
      ToolbarAction("Ordered List", "1. ", "", "list item"),
      ToolbarAction("Quote", "> ", "", "quote"),
      ToolbarAction("Link", "[", "](url)", "link text") ]
  }

  /** The edit a toolbar button makes. */
  function Apply(action: ToolbarAction, value: string, textarea: Option<Selection>): Option<Edit> {
    InsertMarkdown(value, textarea, action.before, Some(action.after), Some(action.placeholder))
  }

  /** Every toolbar button lengthens the text it is applied to by at least
      its markup, whether or not something is selected. */
  lemma ToolbarInsertGrows(action: ToolbarAction, value: string, start: int, end: int)
    requires action in ToolbarActions()
    requires 0 <= start <= end <= |value|
    ensures var e := Apply(action, value, Some(Selection(start, end))).value;
      |e.newValue| >= |value| + |action.before| + |action.after|
  {
    InsertMarkdownFrame(value, start, end, action.before, action.after, action.placeholder);
  }

  /** The buttons shown: the first four on a narrow screen, all otherwise. */
  function VisibleActions(isMobile: bool): (r: seq<ToolbarAction>)
    ensures |r| == if isMobile then 4 else 9
    ensures r == ToolbarActions()[..|r|]
  {
    if isMobile then Take(ToolbarActions(), 4) else ToolbarActions()
  }

  /** The editor's two state cells. */
  class EditorState {
    var showPreview: bool
    var isMobile: bool

    constructor ()
      ensures !showPreview && !isMobile
    {
      showPreview, isMobile := false, false;
    }

    /** The Preview / Edit button. */
    method TogglePreview()
      modifies this
      ensures showPreview == !old(showPreview) && isMobile == old(isMobile)
    {
      showPreview := !showPreview;
    }

    /** `checkMobile`, on mount and on every resize. */
    method CheckMobile(innerWidth: int)
      modifies this
      ensures isMobile <==> innerWidth < 768
      ensures showPreview == old(showPreview)
    {
      isMobile := innerWidth < 768;
    }
  }
}
