# The text engine, the path rules and the change-log lock, verified

This project models three parts of the repository in Dafny and proves what they are for.

**The text engine of the code editor (CodeMirror 2.33).** Lines live in a tree of chunks with parent links and cached
sizes and heights. `LineTree` has the classes of that tree, updated in place; `Document` is the root seen as a plain
sequence of lines. `TextSplice` says what a replacement of characters means, `Editing` has the four ways in which the
editor adjusts its lines to one, and `CodeEditor` puts the document together with the undo history (`UndoHistory`),
the list of pending lines and the changes to redraw. `Display` keeps the rows of the page up to date. `Styles`,
`Tokenizers`, `Highlighting` and `Overlays` are about styled runs and the modes that give them; `Measuring`,
`BracketMatching` and `Searching` are the searches over lines. `Decorations` is the compaction step of the source
printer beside it (google-code-prettify).

**Path normalization of the security manager.** `PathNormalization` has the three passes over one character array, and
proves them against segments. `PathPrefix` says character by character which prefixes there
are and what ends in a separator, `PathMeaning` compares the segments with a single walk of the path, `PathTwice` says what
normalizing again gives, and `WorkingDirectory` is about names that lie in a working directory.

**The lock on the database change log.** `ChangeLogLock` has the steps of any number of nodes over one row.

A tree is described by a ghost value (`Tree`) that says which chunk objects hang below which; `At` ties it to the heap:
every cached size and height is the true sum, every child names its parent, no branch mixes leaves and branches, no
chunk occurs twice. `Bounded` says that leaves hold at most 50 lines and branches at most 10 children. Both are part of
`Doc.Valid`, which every operation keeps. `Ctx` is the path from the root to the place that an operation works at.

Where the code and its promises differ, the model follows the code, gives an input and proves the exact condition for
all inputs: a second separator behind a path prefix stays (`SecondSeparatorStays`, `NormalizedMeans`); normalizing is
not idempotent where a tilde or a colon moves to the front (`TildeAppears`, `ColonAppears`, `NormalizedTwice`); a name in
a working directory that is nothing but a prefix, such as the root, is lost or gets another prefix (`RootIsNoPlace`,
`NormalizedBelow`); and a release of the lock that fails twice can let two nodes in (`TornUnsafe`, `SecureIffWhole`).

## Model

| member | source | states |
|---|---|---|
| LineTree.BranchChunk.MaybeSpill | src/main/webapp/plugins/codemirror/codemirror.js:2890-2910 | Terminates for any number of children; the lines under the root read the same before and after, every cached size and height and every parent link is true again, and if everything but this branch was within its bounds, then afterwards every leaf holds at most 50 lines and every branch at most 10 children. |
| LineTree.GrowRoot | src/main/webapp/plugins/codemirror/codemirror.js:2896-2900 | The root keeps its identity and becomes the parent of a copy of itself and of the split-off sibling; the lines below it stay in order. |
| LineTree.BranchChunk.Insert | src/main/webapp/plugins/codemirror/codemirror.js:2863-2889 | A top-level insert puts exactly the given lines at the given place of the flattened sequence, and keeps all cached sums, parent links and bounds, leaf spilling and root splitting included. |
| LineTree.BranchChunk.Remove | src/main/webapp/plugins/codemirror/codemirror.js:2840-2859 | Takes exactly the lines at..at+n out, detaches each of them, keeps all cached sums and links of what is left, and keeps the bounds; a branch left with less than 25 lines has become one with a single leaf. |
| LineTree.BranchChunk.Collapse | src/main/webapp/plugins/codemirror/codemirror.js:2860-2862 | Appends all lines below the branch, in order. |
| LineTree.LeafChunk.Remove | src/main/webapp/plugins/codemirror/codemirror.js:2803-2812 | The leaf loses exactly these lines and their heights, and the lines no longer have a parent. |
| LineTree.LeafChunk.InsertHeight | src/main/webapp/plugins/codemirror/codemirror.js:2816-2820 | The leaf gains exactly these lines at the place given, becomes their parent, and its height stays the sum over its lines. |
| LineTree.UpdateLineHeight | src/main/webapp/plugins/codemirror/codemirror.js:372-376 | Setting a line's height adds the difference to every chunk above it, so that all cached heights are true sums again and no other line changes. |
| LineTree.GetLineAt | src/main/webapp/plugins/codemirror/codemirror.js:2925-2934 | The descent by chunk sizes ends at line n of the flattened sequence. |
| LineTree.LineNo | src/main/webapp/plugins/codemirror/codemirror.js:2935-2945 | The climb over parent links computes the index of the line in the flattened sequence. |
| LineTree.LineAtHeight | src/main/webapp/plugins/codemirror/codemirror.js:2946-2963 | The descent by chunk heights computes the same as a walk over the plain sequence of line heights. |
| LineTree.HeightAtLine | src/main/webapp/plugins/codemirror/codemirror.js:2964-2977 | The result is the sum of the heights of the first n lines. |
| LineTree.Galois | src/main/webapp/plugins/codemirror/codemirror.js:2946-2977 | Below the total height, h lies at line n if and only if the height at n is at most h and the height at n+1 is above h; lines of height 0 included. |
| LineTree.LineAtEnd | src/main/webapp/plugins/codemirror/codemirror.js:2946-2963 | At or beyond the total height the answer is the number of lines, and before it never is. |
| Document.Doc.constructor | src/main/webapp/plugins/codemirror/codemirror.js:80 | The first document is a valid tree of one leaf with one empty line. |
| Document.Doc.Insert | src/main/webapp/plugins/codemirror/codemirror.js:2863-2889 | Seen from outside, the document is a plain sequence of lines with heights, and an insert is a splice of it; the tree stays valid and within its bounds. |
| Document.Doc.Remove | src/main/webapp/plugins/codemirror/codemirror.js:2840-2859 | A removal is a splice of that sequence; the lines removed have no parent any more. |
| Document.Doc.UpdateLineHeight | src/main/webapp/plugins/codemirror/codemirror.js:372-376 | Only the height of that line changes in the sequence; for a line outside the document nothing does. |
| Document.Doc.LineNo | src/main/webapp/plugins/codemirror/codemirror.js:2935-2945 | Null exactly for lines without a parent, which are in no place of the document; else the only place where the line is. |
| Document.Doc.RoundTrip | src/main/webapp/plugins/codemirror/codemirror.js:2925-2945 | In every valid document, asking for the number of line n gives n. |
| Document.Doc.VisibleLines | src/main/webapp/plugins/codemirror/codemirror.js:1031-1037 | The two line numbers are in order, every line of which some pixel lies in the window is between them, and the range is no wider: the first is the line that the upper edge falls on, and the second the line at the lower edge rounded up to whole lines. |
| Document.OneView | src/main/webapp/plugins/codemirror/codemirror.js:1031-1037 | There is only one such pair of lines. |
| Styles.CopyStyles | src/main/webapp/plugins/codemirror/codemirror.js:2777-2789 | Appends exactly the characters from..to of the source runs, each with its style. |
| LineTree.Line.Replace | src/main/webapp/plugins/codemirror/codemirror.js:2501-2507 | The runs still spell the text, which is the splice; all characters outside from..to keep their styles, and the new ones have none. |
| LineTree.Line.Split | src/main/webapp/plugins/codemirror/codemirror.js:2519-2522 | The new line is spelled by its runs: the given text without style, and the characters behind the split with theirs. |
| LineTree.Line.Append | src/main/webapp/plugins/codemirror/codemirror.js:2536-2539 | Text and styled characters of the other line follow those of this one. |
| LineTree.Line.Highlight | src/main/webapp/plugins/codemirror/codemirror.js:2604-2631 | For any mode that always gets on: the runs spell the text, every character has the style of its token, up to 5000 characters no run is empty and no two neighbours share a style, and the result tells exactly whether the array of runs changed. |
| Highlighting.NormalUnique | src/main/webapp/plugins/codemirror/codemirror.js:2604-2631 | There is only one list of non-empty runs with different neighbours for given styled characters, so the in-place result depends on nothing but the mode and the text. |
| Tokenizers.WithinLimit | src/main/webapp/plugins/codemirror/codemirror.js:2620-2624 | A line of at most 5000 characters is tokenized to its end, and leaves the mode ready for the next line. |
| TextSplice.JoinReplaced | src/main/webapp/plugins/codemirror/codemirror.js:741-791 | As one string, the new text is the old one with the characters between the two positions replaced. |
| Editing.EditWhole | src/main/webapp/plugins/codemirror/codemirror.js:752-763 | Whole lines for whole lines: the right text; the lines replaced lose their parent, and the line behind them stays, with its height, as the last of the new ones. |
| Editing.EditInLine | src/main/webapp/plugins/codemirror/codemirror.js:764-766 | A replacement inside one line is the same splice of the text, and the line object stays where it is. |
| Editing.EditBreak | src/main/webapp/plugins/codemirror/codemirror.js:767-776 | Splitting the line and inserting the lines between is the same splice; the line object is the first of the new ones. |
| Editing.EditJoin | src/main/webapp/plugins/codemirror/codemirror.js:777-781 | Cutting both end lines, appending the last to the first and removing it is the same splice; the first line object stays, and the others lose their parent. |
| Editing.EditGeneral | src/main/webapp/plugins/codemirror/codemirror.js:782-791 | Cutting both end lines and replacing the lines between is the same splice; both end lines stay, as the first and the last of the new ones. |
| Editing.EditLines | src/main/webapp/plugins/codemirror/codemirror.js:750-791 | The text is the one specification of a replacement, and the line objects are those of the branch that the positions and the new text call for: with whole lines replaced by whole lines, the object behind the range moves along and those replaced go; else the first stays the first, and with line breaks the last becomes the last; new lines have height 1, and the lines around keep their identity and move by the difference in lines. |
| CodeEditor.Editor.UpdateLinesNoUndo | src/main/webapp/plugins/codemirror/codemirror.js:741-824 | The edit with what it does to the line objects, the renumbered list of pending lines and the remembered change together; every line that changed is covered by the remembered change. |
| CodeEditor.ReworkedMeans | src/main/webapp/plugins/codemirror/codemirror.js:812-817 | A number is pending after an edit exactly if it stood for a line in front of the range, or, less the difference, behind it. |
| CodeEditor.WorkFollows | src/main/webapp/plugins/codemirror/codemirror.js:812-817 | A pending number names the same line as before the edit. |
| CodeEditor.HandleFollows | src/main/webapp/plugins/codemirror/codemirror.js:750-791 | Exactly where each old line is after an edit: in front of the range at its number, behind it moved by the difference; of the range, after an edit of whole lines only the one behind those replaced, as the last new one, and after any other the first at its number, and with line breaks the last as the last new one. All others have no parent. |
| UndoHistory.MergedMeans | src/main/webapp/plugins/codemirror/codemirror.js:2995-3006 | When the new edit overlaps or touches the last one, the merged change fits, keeps at least one added and one old line, and undoing it is undoing the new edit and then the last. |
| UndoHistory.Merge | src/main/webapp/plugins/codemirror/codemirror.js:3000-3005 | The two loops and the updates of start and added build that merged change. |
| UndoHistory.History.AddChange | src/main/webapp/plugins/codemirror/codemirror.js:2988-3008 | In an open compound the change joins the last group; else it is a group of its own if more than 400 ms went by, if there is no last change, if the group is closed, or if it lies apart from the last change; else it is merged into the last change of the last group. Redo is forgotten, the time is kept, and the group is open. |
| UndoHistory.Record | src/main/webapp/plugins/codemirror/codemirror.js:713-721 | That choice, made from time, compound depth, closed flag and the groups as they were, then the groups beyond the undo depth dropped; the groups fit the new text and keep the base. |
| UndoHistory.RecordedBase | src/main/webapp/plugins/codemirror/codemirror.js:2988-3008 | In whichever of the three ways a change is recorded, undoing all groups leads to the same base as before. |
| UndoHistory.ForgottenBase | src/main/webapp/plugins/codemirror/codemirror.js:719 | Forgetting the oldest groups moves the base exactly to where those groups would have gone on from. |
| UndoHistory.InverseGroupUndoes | src/main/webapp/plugins/codemirror/codemirror.js:723-737 | Undoing a group and then the group that this leaves behind restores the text, and the group that the second step leaves behind is the first one. |
| UndoHistory.UndoRedo | src/main/webapp/plugins/codemirror/codemirror.js:723-739 | Undo then redo, and redo then undo, are the identity on text, done and undone. |
| UndoHistory.UndoAll | src/main/webapp/plugins/codemirror/codemirror.js:738 | As many undos as there are groups lead to the base, with nothing left to undo. |
| UndoHistory.RedoAll | src/main/webapp/plugins/codemirror/codemirror.js:738-739 | Any number of undos followed by as many redos leads back to the same text and the same history. |
| UndoHistory.RunKeepsBase | src/main/webapp/plugins/codemirror/codemirror.js:713-739 | Over every run of edits, undos and redos, from any history that fits its text, recorded in any way and with any number of groups forgotten at any time: both sides of the history fit the text, and together with the groups forgotten on the way lead back to the first base. |
| CodeEditor.Editor.UpdateLines | src/main/webapp/plugins/codemirror/codemirror.js:713-722 | An edit replaces the text, moves the line objects as described, is recorded in the one way that the time, the compound, the closed flag and the last change call for, keeps the whole editor valid, is a step of the run, and keeps the base but for groups beyond the undo depth; chunks and lines of the document are old ones or new, so that another step can follow. |
| CodeEditor.Editor.Unredo | src/main/webapp/plugins/codemirror/codemirror.js:723-739 | On the real document, undo and redo are the two other steps of that run; the base does not change, every changed line is covered by a remembered change, and another step can follow. |
| CodeEditor.Editor.ClipPos | src/main/webapp/plugins/codemirror/codemirror.js:1351-1358 | On the tree, the position of the text nearest to a point: on the point's own line, if there is one, with the column cut to the line; else the first position of the text or the last. |
| CodeEditor.Editor.ReplaceRange | src/main/webapp/plugins/codemirror/codemirror.js:881-900 | Replaces the text between the positions nearest to two points, as one recorded edit. |
| CodeEditor.Editor.Perform | src/main/webapp/plugins/codemirror/codemirror.js:723-739 | Any list of replacements, undos and redos, one after the other on the real document: each does what it is for, the states between them are returned, and every line changed on the whole way is covered by the changes remembered. |
| CodeEditor.LeadsRun | src/main/webapp/plugins/codemirror/codemirror.js:713-739 | The states that such a list leads through are a run of the history. |
| CodeEditor.Editor.Operation | src/main/webapp/plugins/codemirror/codemirror.js:2038-2046 | A whole operation, from resetting the changes to drawing them: whatever replacements, undos and redos it performs, they are a run, undoing all groups left and forgotten leads to the same base as before, and at its end the rows shown are those of the text of now, contain every line with a pixel in the window, and end less than 120 lines from it, unless nothing was drawn. |
| Display.ComputeIntact | src/main/webapp/plugins/codemirror/codemirror.js:1132-1153 | The nested loops compute the ranges that the changes, one after the other, leave. |
| Display.PunchExact | src/main/webapp/plugins/codemirror/codemirror.js:1132-1153 | A change takes away the rows of exactly the lines it touches: every other line stays intact, at its new number and its old row. |
| Display.PunchAllIntact | src/main/webapp/plugins/codemirror/codemirror.js:1132-1153 | If the changes cover everything that changed in the document, then every range left names rows that are right for the document of now, in order and without overlap. |
| Display.Clip | src/main/webapp/plugins/codemirror/codemirror.js:1063-1071 | The clipping loop keeps of every range the part inside the window, in place, and counts the lines kept. |
| Display.ClippedExact | src/main/webapp/plugins/codemirror/codemirror.js:1063-1071 | A line is intact after clipping exactly if it was before and lies in the window. |
| Display.FullWindow | src/main/webapp/plugins/codemirror/codemirror.js:1072-1075 | If as many lines are intact as the window has, the rows already are those of the window, one by one: the early return is right. |
| Display.SortedAlready | src/main/webapp/plugins/codemirror/codemirror.js:1076 | Sorting the ranges by their first row never moves one. |
| Display.Screen.KillStale | src/main/webapp/plugins/codemirror/codemirror.js:1156-1171 | The first pass leaves exactly the rows of the intact lines, in order. |
| Display.Screen.FillIn | src/main/webapp/plugins/codemirror/codemirror.js:1173-1193 | The second pass makes row k the row of line from + k, for the whole window. |
| Display.Screen.PatchDisplay | src/main/webapp/plugins/codemirror/codemirror.js:1155-1193 | Both passes together are a full redraw of the window. |
| Display.Screen.UpdateDisplay | src/main/webapp/plugins/codemirror/codemirror.js:1041-1098 | Given changes that cover every changed line: whatever return is taken, the rows are those of the lines showingFrom..showingTo and cover the visible lines, and the test for a bad patch is never true. Unless nothing changed and the visible lines lie inside those shown, at least a hundred lines and less than 120 are shown on each side, as far as there are any. With no width nothing is shown, and the stale rows do no harm later. |
| CodeEditor.Editor.EndOperation | src/main/webapp/plugins/codemirror/codemirror.js:1992-2016 | At the end of an operation, with the changes it remembered, the rows shown are those of the text of now, every line of which some pixel lies in the window has its row, and not many more than the lines at the edges of the window do; the test for a bad patch is never true. |
| Overlays.OverlaidAdvances | src/main/webapp/plugins/codemirror/util/overlay.js:29-45 | If both modes always get on, moving or coming closer to moving, so does the overlay of the two. |
| Overlays.OverlaidStrict | src/main/webapp/plugins/codemirror/util/overlay.js:29-45 | If both modes move on at every call, so does the overlay of the two. |
| Overlays.OverlaidProduct | src/main/webapp/plugins/codemirror/util/overlay.js:29-45 | Over a whole line: where the overlay gives no style, a character has the base's style; where it gives one, that style, or, to be combined with a style of the base, the base's, a space and the overlay's. At the end of the line both positions are back to 0 and each mode is in the state it would have reached alone. |
| Overlays.OverlayState.Token | src/main/webapp/plugins/codemirror/util/overlay.js:29-45 | One call in place: each mode is called if its last token ended here, the token ends where the nearer of the two does, both positions start over at the end of the line, and the style is the overlay's if it gives one, or combined with the base's, and else the base's; that is one step of the overlay mode. |
| Overlays.OverlayState.RunLine | src/main/webapp/plugins/codemirror/util/runmode.js:44-49 | Driving the overlay mode to the end of a line gives tokens that tile the line with those styles, character by character. |
| Measuring.CharFromX | src/main/webapp/plugins/codemirror/codemirror.js:1673-1698 | Terminates, and no character boundary of the line is nearer to x than the one returned. |
| BracketMatching.MatchIsBalanced | src/main/webapp/plugins/codemirror/codemirror.js:1871-1887 | The scan reports a match at a bracket exactly if that is the partner of the first one and what lies between is a balanced word over the three kinds of brackets; in both directions. |
| BracketMatching.Scan | src/main/webapp/plugins/codemirror/codemirror.js:1872-1887 | Reading a line run by run, and each run of the right style character by character, is the stack machine over the brackets of that style, in the direction of the scan. |
| BracketMatching.MatchBrackets | src/main/webapp/plugins/codemirror/codemirror.js:1863-1893 | Starts from the bracket in front of the cursor or else behind it, and over up to a hundred lines in its direction reports a match if and only if the bracket found closes a balanced word; the two brackets then are one of the three pairs. Without a match it reports the first bracket that closes where another one would have to, if there is one. |
| BracketMatching.StopIsClash | src/main/webapp/plugins/codemirror/codemirror.js:1871-1887 | The scan stops without a match exactly at a bracket that closes something else than the last one still open, with balanced words behind all that are. |
| BracketMatching.PartnerIs | src/main/webapp/plugins/codemirror/codemirror.js:1862 | The three pairs of brackets. |
| BracketMatching.LinesToksAre | src/main/webapp/plugins/codemirror/codemirror.js:1872-1891 | The scan reads exactly the brackets of the same style, on the lines up to its end, and on the first line only those beyond the bracket it started from. |
| BracketMatching.LinesToksOrder | src/main/webapp/plugins/codemirror/codemirror.js:1872-1891 | It reads them in order, forwards or backwards. |
| Searching.SearchCursor.Matches | src/main/webapp/plugins/codemirror/util/searchcursor.js:44-50 | On one line, the first occurrence at or behind the position, or the last one that ends at or before it; none only if there is none. |
| Searching.SearchCursor.Find | src/main/webapp/plugins/codemirror/util/searchcursor.js:80-104 | Forwards the least occurrence at or behind the clipped end of the last one in the whole document, backwards the greatest that ends at or before its start, said of the characters of the lines; on failure there is none, and the cursor stands at the end or at the start. |
| Searching.ClipNearest | src/main/webapp/plugins/codemirror/codemirror.js:1351-1358 | Clipping keeps positions of the text, keeps the line of a point and cuts its column, and takes points before and behind the text to its first and last position. |
| Searching.SearchCursor.FindAll | src/main/webapp/plugins/codemirror/util/searchcursor.js:77-104 | Repeating findNext lists the leftmost occurrences that do not overlap, in order, and stops when there are none. |
| Decorations.Compact | src/main/webapp/plugins/google_code_prettify/prettify.js:16 | The two loops leave in the front of the array exactly the decorations that style something, with equal neighbours merged. |
| Decorations.CompactKeepsStyles | src/main/webapp/plugins/google_code_prettify/prettify.js:16 | For any list of starts that does not fall, every character keeps its style, and no two neighbours left have the same one. |
| PathNormalization.DropSlashes | src/main/java/org/zooffice/sm/ZoofficeSecurityManager.java:372-379 | The first pass stays in bounds and leaves the segments without the empty ones, except one right behind the prefix. |
| PathNormalization.DropDots | src/main/java/org/zooffice/sm/ZoofficeSecurityManager.java:381-391 | The second pass leaves the segments without the dots, and marks a name that ended in one as a directory. |
| PathNormalization.PopParents | src/main/java/org/zooffice/sm/ZoofficeSecurityManager.java:393-418 | The third pass resolves every double dot against the segment before it, and fails exactly when there is none. |
| PathNormalization.DoNormalize | src/main/java/org/zooffice/sm/ZoofficeSecurityManager.java:341-430 | For every input, prefix, separator and flag: the array algorithm returns what the three passes mean on segments, null exactly for an invalid prefix or a double dot that would pass it, and stays in the bounds of its array. |
| PathPrefix.DriveLength | src/main/java/org/zooffice/sm/ZoofficeSecurityManager.java:494-502 | A letter of either case and a colon are a drive, with the slash behind it if there is one. |
| PathPrefix.NoDrive | src/main/java/org/zooffice/sm/ZoofficeSecurityManager.java:494-502 | Any other character but a tilde in front of a colon makes the name invalid, save two outside ASCII whose upper case is such a letter. |
| PathPrefix.HomeLength | src/main/java/org/zooffice/sm/ZoofficeSecurityManager.java:477-492 | A tilde is a prefix up to the first slash, or with the whole name and a slash to come. |
| PathPrefix.ServerLength | src/main/java/org/zooffice/sm/ZoofficeSecurityManager.java:504-512 | Two slashes, a name and a slash are a prefix; without the name or the slash behind it the name is invalid. |
| PathPrefix.OtherLength | src/main/java/org/zooffice/sm/ZoofficeSecurityManager.java:465-517 | All other names: none, or a single slash; a colon in front is invalid. |
| PathPrefix.DriveStays | src/main/java/org/zooffice/sm/ZoofficeSecurityManager.java:341-430 | A name on a drive written in either case comes to nothing only by going up past the root, and else stays on that drive. |
| PathPrefix.TrailingSeparator | src/main/java/org/zooffice/sm/ZoofficeSecurityManager.java:361-430 | What comes to more than its prefix ends in a separator if and only if the name ended in a slash, or in one dot or two behind a slash or the prefix. |
| PathMeaning.NormalizedMeans | src/main/java/org/zooffice/sm/ZoofficeSecurityManager.java:341-430 | For every name and both values of the flag: the result is what a single walk from the prefix gives if and only if there is no second separator right behind the prefix, or the walk goes up past the segment that this separator leaves, or nothing else is left and the trailing separator is not kept. |
| PathMeaning.NormalizedNone | src/main/java/org/zooffice/sm/ZoofficeSecurityManager.java:341-430 | Exactly these names come to nothing: an invalid prefix, or a walk that goes up past what the passes keep. |
| PathMeaning.SecondSeparatorStays | src/main/java/org/zooffice/sm/ZoofficeSecurityManager.java:372-379 | A name with a second separator behind its drive, on which the passes and the walk differ. |
| PathTwice.NormalizedTwice | src/main/java/org/zooffice/sm/ZoofficeSecurityManager.java:341-430 | For every name: normalizing twice differs from normalizing once if and only if the prefix is at most one character and the first segment that the walk leaves is misread: a colon in front of it; or, without any prefix, a tilde in front of all there is, or a colon as its second character behind no drive letter, or with only one dot or two behind it. |
| PathTwice.PlainTwice | src/main/java/org/zooffice/sm/ZoofficeSecurityManager.java:341-430 | So names without a colon and a tilde are normalized once and for all. |
| PathTwice.TildeAppears | src/main/java/org/zooffice/sm/ZoofficeSecurityManager.java:465-517 | A name whose tilde becomes a prefix only after the first time. |
| PathTwice.ColonAppears | src/main/java/org/zooffice/sm/ZoofficeSecurityManager.java:465-517 | A name whose colon makes what comes out invalid the second time. |
| PathTwice.PlainPrefix | src/main/java/org/zooffice/sm/ZoofficeSecurityManager.java:465-517 | Which prefixes a name without a colon and a tilde can have, and when it has none that is valid. |
| WorkingDirectory.Normalize | src/main/java/org/zooffice/sm/ZoofficeSecurityManager.java:272-277 | Without a file name nothing. A name without a prefix means the walk of its segments from where the working directory's own walk ends, if and only if the directory goes on behind its prefix with no other separator, or there is no such walk and the name is refused; any other name means its own walk, under the condition of NormalizedMeans. |
| WorkingDirectory.NormalizedBelow | src/main/java/org/zooffice/sm/ZoofficeSecurityManager.java:272-277 | That condition on the working directory, for every directory with a valid prefix and every name without one. |
| WorkingDirectory.RootIsNoPlace | src/main/java/org/zooffice/sm/ZoofficeSecurityManager.java:272-277 | The root directory does not meet it: a name below it comes to nothing. |
| WorkingDirectory.StaysBelow | src/main/java/org/zooffice/sm/ZoofficeSecurityManager.java:393-418 | A path walks from nowhere if and only if, step by step, its walk from any place stays at or below that place; then its end is the place with its own walk behind it. |
| WorkingDirectory.EndsBelow | src/main/java/org/zooffice/sm/ZoofficeSecurityManager.java:393-418 | A walk ends at or below its place if and only if it goes up no further than the place is deep, and goes back down all that it went up. |
| WorkingDirectory.ComesBack | src/main/java/org/zooffice/sm/ZoofficeSecurityManager.java:393-418 | A path that leaves its place and comes back to it. |
| WorkingDirectory.StaysInside | src/main/java/org/zooffice/sm/ZoofficeSecurityManager.java:272-277 | Below a directory that meets the condition, a name that walks from nowhere is normalized to the directory's segments with its own behind them. |
| ChangeLogLock.StepInv | src/main/java/liquibase/lockservice/LockServiceEx.java:99-183 | Each step of a node, with every call able to fail, keeps: whoever has the lock has it alone and committed, only its holder writes an unlock, and a pending lock was written over an unlocked row. |
| ChangeLogLock.RunSafe | src/main/java/org/zooffice/infra/init/LiquibaseEx.java:57-81 | Over all interleavings of any number of nodes at most one is between the return of waitForLock and the commit of releaseLock, whatever the reads returned and whichever calls failed, as long as no release failed both to commit and to roll back. |
| ChangeLogLock.EveryTearIsUnsafe | src/main/java/liquibase/lockservice/LockServiceEx.java:222-257 | Whenever a release fails both to commit and to roll back while there is another node, on any database, some continuation has both inside. |
| ChangeLogLock.SecureIffWhole | src/main/java/org/zooffice/infra/init/LiquibaseEx.java:57-81 | With two nodes or more, on any database: from every state of a run, all continuations without another such failure keep exclusion, if and only if no release of the run failed in that way. |
| ChangeLogLock.TornUnsafe | src/main/java/liquibase/lockservice/LockServiceEx.java:222-257 | The run of two nodes that shows it. |
| ChangeLogLock.OnlyHolderReleases | src/main/java/liquibase/lockservice/LockServiceEx.java:222-257 | The row becomes unlocked only in the commit of the holder's own release: never by a node that timed out or failed. |
| ChangeLogLock.RefinesLock | src/main/java/liquibase/lockservice/LockServiceEx.java:99-183 | The protocol refines a lock with at most one owner, who takes it when it is free and gives it back. |
| ChangeLogLock.TakeableIsUnlocked | src/main/java/org/zooffice/infra/init/LockExDatabaseChangeLogGenerator.java:70-96 | Every value that the conditional update turns over is read as unlocked, and the value that it writes is read as locked and cannot be turned over again. |
| ChangeLogLock.ValuesMean | src/main/java/liquibase/lockservice/LockServiceEx.java:192-216 | What each value read from the row means: locked, not locked, or refused. |
| ChangeLogLock.BlanksMean | src/main/java/liquibase/lockservice/LockServiceEx.java:192-216 | Blanks around a value make no difference. |
| ChangeLogLock.FreeRowLets | src/main/java/liquibase/lockservice/LockServiceEx.java:119-183 | From a free row, F or with one kind of database 0, a node can get the lock, whichever value that is not locked it reads before. |
| ChangeLogLock.TakenRowWaits | src/main/java/liquibase/lockservice/LockServiceEx.java:119-183 | While the row is taken, the update of a node changes nothing, and the node tries again or fails. |

## Left out

- Text markers and bookmarks, line handlers and callbacks, the gutter, and everything that touches the browser: rows of
  the page are values, and the measure of a line and the size of the window are parameters.
- The guesses of line heights with line wrapping, the longest line, the selection and hidden lines in it, which follow
  the edit in `updateLinesNoUndo` and do not change lines, history or pending work.
- The background highlighter, and the changes it adds for redrawing; the display accepts any list of changes that covers
  what changed.
- The read-only switch, `setHistory`, and the clock: the time of an edit is a parameter.
- `adjustPos` of `replaceRange`, `SearchCursor.replace`, and searches that fold case, use patterns or span lines.
- The fallback of `splitLines`: an edit gets its lines ready split.
- Characters are those of Dafny: pairs of surrogates are not taken apart.
- Numbers that the browser computes with rounding are integers or exact reals.
- The sort of the intact ranges is not a step of `UpdateDisplay`, because any sort leaves them alone (`SortedAlready`).
- The lock protocol is a state machine over the steps of its nodes: the text of the SQL statements, the log messages,
  the table of service instances, `forceReleaseLock`, `reset` and `resetAll` are not part of it.
- PathTwice.NormalizedTwice: only with the trailing separator kept, as the only caller asks for.
- The lists of directories that the security manager allows, and its test of a normalized name against them.
- Language modes, hints, folding, charts, date pickers, form handling, services and controllers.
