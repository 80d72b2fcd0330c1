# Verified model of the WeArePlanet payment plugin

This project models two groups of code and proves properties of the models.

The first group is the plugin's own checkout logic, written in PHP: the filter that decides which payment
methods may be shown, with its memo and caches; the payment handler and the cart persister that guard the
customer's cart; the service that rebuilds a cart from an order; the migration that moves the transaction
table to its new name; and the copy of line items for a recurring charge.

The second group is the JavaScript that ships with the documentation: the highlighting loop, token tree,
HTML renderer and stream merge of highlight.js, and the callback lists, the deferred and `uniqueSort` of
jQuery. Both scripts are minified, so their citations are single lines.

| file | what it models |
|---|---|
| `Optional.dfy` | a value that may be absent |
| `Html.dfy` | escaping, deletion of tags, token sequences and their nesting |
| `TokenTree.dfy`, `Emitter.dfy` | the token tree as a value, and the node objects and the renderer that are mutated |
| `Lexer.dfy`, `Highlighter.dfy` | the lexeme loop as a state machine over any regular expressions, and the object with its closures' variables |
| `Moves.dfy` | which match an iteration works on, which mode an end match closes, and where an iteration leads, from the oracle and the grammar alone |
| `Colours.dfy`, `ColouredRuns.dfy` | the classes around every character, in a tree, in the HTML as a browser reads it, and over every run of the lexeme loop |
| `Termination.dfy` | which grammars make every run of the lexeme loop end, and one whose run never does |
| `MergeStreams.dfy`, `DomStreams.dfy`, `MergedHtml.dfy` | the merge of two event streams, the streams recorded from a document, and the merged HTML read back |
| `Callbacks.dfy`, `CallbackList.dfy`, `CallbackLaws.dfy` | the re-entrant callback list as a machine and as an object, and what is called how often with which arguments, by the operations alone |
| `Deferred.dfy`, `DeferredLaws.dfy` | the deferred over six lists, and each of them as a callback list of its own |
| `UniqueSort.dfy` | sorting and removing duplicates in place |
| `CacheKeys.dfy`, `PaymentFilter.dfy` | the strings under which answers are remembered, and the runs of memo, cache and gateway |
| `StableSorting.dfy`, `FilteredCollection.dfy`, `FilterService.dfy` | the filtered collection by a declarative description, and the service object that builds it |
| `Migration.dfy`, `MigrationRuns.dfy`, `Installations.dfy`, `MigrationScript.dfy` | schemas, statements and steps; stopping and resuming; where installations end up; the script on a connection |
| `Checkout.dfy`, `CheckoutHandler.dfy` | paying and coming back over all runs, and the handler, persister, session and context objects |
| `CartRecovery.dfy`, `CartRecoveryService.dfy` | what a rebuilt cart holds, and the service with its loops |
| `Recurring.dfy` | rounding, the copy of line items, the payment that is charged again |

Code that changes variables, fields or collections step by step is a class or a method with loops here, and
each such method is proved equal to a function of the old state; the theorems are about those functions and
about runs of them. `dafny verify dfyconfig.toml` checks the project.

## Where the code does not do what is promised

Each of these is a theorem that says exactly when the promise holds.

- highlight.js loses or doubles text in exactly the iterations that `Lexer.Corrupts` describes: a mode that
  rereads a lexeme it has already buffered, an empty match that moves the cursor, or a buffer handed to a nested
  run that gives another text back, except where what is missing from the nested tree is just what is read again
  (`Lexer.IterateKeepsText`, with `Lexer.RereadingDoublesText` and `Lexer.FailedNestedRunLosesText` as instances).
  A nested run gives its whole text back if it is clean and finishes; one that fails gives back what it had
  flushed (`Lexer.NestedResult`).
- The lexeme loop of highlight.js never ends for a mode that is begun without moving on and may be begun inside
  itself, because the guard against endless loops is reached only by matches that neither begin nor end a mode
  (`Termination.EndlessFromTheStart`); every run ends for grammars that `Termination.Grounded` describes
  (`Termination.GroundedHighlightEnds`).
- highlight.js takes an element for void if its name contains `br`, `hr`, `img` or `input`; merged HTML is well
  nested for a browser exactly if no element of the original that is not void in HTML, such as `abbr`, has such a
  name (`DomStreams.NestsInHtmlIff`, `DomStreams.AbbrPassesForVoid`).
- Emptying a jQuery list from inside a running callback skips the first callbacks added afterwards
  (`Callbacks.EmptyingSkipsLaterAdditions`, `Callbacks.EmptiedListForgets`).
- The migration can be stopped and resumed, and repeated, exactly if a fresh table is not renamed beside an old
  table that is not the old plugin's (`MigrationRuns.ResumesExactlyUnlessLeftBehind`).
- Fresh and upgraded installations meet exactly if nothing is in the way that neither branch removes. An upgrade
  keeps every key the old table has, so it is at the target exactly if that table has only final columns and keys
  and its refund key references it (`Installations.UpgradeAtTarget`, with `Installations.OriginalKeysSurvive` as
  an instance). A fresh installation never brings an existing refund table up to date
  (`Installations.FreshAtTarget`, with `Installations.ExistingRefundTableIsKept` as an instance).
- A failed payment forgets the pending transaction exactly if the context was resolved and it is not a request
  without a session whose gateway transaction could not be made and stayed pending
  (`Checkout.FailedPayment`, `Checkout.SessionlessFailureKeepsRecord`). A rejected return forgets it exactly if
  the request's token resolves to a context with its customer (`Checkout.RejectedReturn`,
  `Checkout.RejectedReturnKeepsRecord`).
- The token kept with the order, meant for requests without a storefront, is never used without a session
  (`Checkout.PassingReturnWithoutToken`).
- A child product comes back into a rebuilt cart exactly if the customized products route exists, its parent is a
  container of the order and it is the first product of that container (`CartRecovery.ChildProductReturns`,
  `CartRecovery.SecondProductIsLost`); an
  upload option keeps all its files exactly if it has at most one (`CartRecovery.UploadsKeepOneFile`).
- The cart a customer had before an order is recovered is still stored afterwards exactly if the context is
  guarded and the order has nothing that can be rebuilt (`CartRecoveryService.OldCartStaysIff`).

## Model

| member | source | states |
|---|---|---|
| Html.EscapeStep | docs/en/assets/highlight.js:6 | The three global replacements of the escape function never touch each other's output: together they act character by character. |
| Html.UnescapeEscape | docs/en/assets/highlight.js:6 | Reading the entities back from escaped text gives the text, for every text. |
| Html.EscapeHasNoBrackets | docs/en/assets/highlight.js:6 | Escaped text contains no bracket, so it can neither open nor close a tag. |
| Html.StripWrite | docs/en/assets/highlight.js:6 | Deleting the tags from written HTML leaves the escaped text and unescaping recovers the text, for every token sequence whose tag bodies hold no closing bracket. |
| TokenTree.CloseNode | docs/en/assets/highlight.js:6 | Closing a node keeps the text of the tree and lowers the stack by one, but never below the root. |
| TokenTree.TokensNest | docs/en/assets/highlight.js:6 | The spans written for a tree leave any stack of open tags as it was, and their text is that of the leaves. |
| TokenTree.RenderRoundTrip | docs/en/assets/highlight.js:6 | For every tree: the spans are well nested, deleting them gives the escaped leaves, and unescaping recovers the text. |
| Colours.PaintAdd | docs/en/assets/highlight.js:6 | A child is put behind everything painted so far, within the classes of all open nodes. |
| Colours.PaintOpenNode | docs/en/assets/highlight.js:6 | Opening a node paints nothing and puts its kind innermost. |
| Colours.PaintCloseNode | docs/en/assets/highlight.js:6 | Closing a node changes the classes of no character and leaves the kinds outside it. |
| Colours.RenderShows | docs/en/assets/highlight.js:6 | For every tree, a browser reading its HTML shows every character of the leaves within the classes of the nodes around it: the prefixed kind, or the bare language of a nested result, and none for an empty kind. |
| Emitter.Emitter.Add | docs/en/assets/highlight.js:6 | Adding a child changes only the innermost open node, in the object graph as in the tree. |
| Emitter.Emitter.OpenNode | docs/en/assets/highlight.js:6 | A new node is both the last child of the innermost one and the new top of the stack. |
| Emitter.Emitter.CloseNode | docs/en/assets/highlight.js:6 | Pops the stack exactly if more than the root is open, and says whether it did. |
| Emitter.Emitter.CloseAllNodes | docs/en/assets/highlight.js:6 | Ends with the root alone, all open nodes folded into their parents. |
| Emitter.Emitter.AddKeyword | docs/en/assets/highlight.js:6 | An empty keyword adds nothing; another becomes a closed node with one text. |
| Emitter.Emitter.AddSublanguage | docs/en/assets/highlight.js:6 | A nested result becomes one child that carries its language as kind. |
| Emitter.Emitter.ToHTML | docs/en/assets/highlight.js:6 | The walk over the node objects writes exactly the rendering of the tree they stand for. |
| Emitter.Walk | docs/en/assets/highlight.js:6 | Walking a child appends its rendering to the buffer: opening and closing tags are decided by the same test of the kind. |
| Lexer.LookAhead | docs/en/assets/highlight.js:6 | No match is ever behind the cursor, although a resumed scan starts before it. |
| Lexer.LeaveKeeps | docs/en/assets/highlight.js:6 | Leaving modes closes exactly the nodes they opened, so the root is never closed. |
| Lexer.IterateKeepsInv | docs/en/assets/highlight.js:6 | Through every iteration the emitter's stack is one higher than the number of active modes with a class name. |
| Lexer.FlushKeepsTextIff | docs/en/assets/highlight.js:6 | Flushing keeps the text if and only if the mode has no sublanguage, the buffer is empty, the language is unknown or none was detected, or the nested tree has the text it was given. |
| Lexer.CorruptsWithoutNested | docs/en/assets/highlight.js:6 | Where no nested result has another text, the grammar's flags and the length of the match decide whether an iteration corrupts. |
| Lexer.IterateKeepsText | docs/en/assets/highlight.js:6 | For every oracle, an iteration keeps emitted plus buffered text equal to the text before the cursor if and only if it is not one of the corrupting ones. |
| Lexer.RereadingDoublesText | docs/en/assets/highlight.js:6 | A mode that both skips and returns its lexeme doubles a letter. |
| Lexer.RunKeepsText | docs/en/assets/highlight.js:6 | For every oracle, a run keeps the text throughout if and only if none of its iterations is a corrupting one. |
| Lexer.NestedResult | docs/en/assets/highlight.js:6 | A nested run that is clean and finishes gives its whole text back; one that fails gives back what it had flushed, which with its lost buffer is the text before the match it failed on, so it is whole exactly if that match is at the end and the buffer empty. |
| Lexer.FailedNestedRunLosesText | docs/en/assets/highlight.js:6 | A nested run that fails at once, and an outer run that finishes without its letter. |
| Lexer.TameIsClean | docs/en/assets/highlight.js:6 | Grammars that do not combine returning with skipping or excluding, and have no empty match that only advances the cursor, never corrupt, provided every nested run that is used is clean and finishes. |
| Lexer.TameThroughoutIsClean | docs/en/assets/highlight.js:6 | To any depth of nesting: if all grammars are of this kind and all nested runs finish, every run is clean. |
| Lexer.HighlightKeepsText | docs/en/assets/highlight.js:6 | For any input, any match oracle, any nested results and any clean run: at the end the leaves are the text, and so is the HTML without tags and entities. |
| Highlighter.Highlighter.constructor | docs/en/assets/highlight.js:6 | A new or continued run starts with the modes of the earlier one reopened from the outside inwards. |
| Highlighter.Highlighter.Flush | docs/en/assets/highlight.js:6 | Flushing turns the buffer into text, keywords or a nested result in the emitter and empties it. |
| Highlighter.Highlighter.BeginMatch | docs/en/assets/highlight.js:6 | A begin match updates buffer, modes, emitter, cursor and resume flag as the state machine does, whose laws are those of `Moves` and `ColouredRuns`. |
| Highlighter.Highlighter.EndMatch | docs/en/assets/highlight.js:6 | An end match leaves modes up to the ended one, closes their nodes and starts a successor. |
| Highlighter.Highlighter.ProcessLexeme | docs/en/assets/highlight.js:6 | Processing a lexeme is one step of the state machine, with the empty begin and end pair and the illegal lexeme. |
| Highlighter.Highlighter.Loop | docs/en/assets/highlight.js:6 | The loop is a run of the state machine. |
| Lexer.FinishedAtRoot | docs/en/assets/highlight.js:6 | A run that ends has flushed its buffer and closed every node but the root, for every grammar. |
| Moves.LookIsFirstHit | docs/en/assets/highlight.js:6 | An iteration works on the leftmost place where a rule of the innermost mode matches, and there on the first such rule in the order contained modes, end, illegal; a resumed scan goes on where the matcher stood with the rules not tried; there is no match exactly if there is no such place. |
| Moves.FirstHitIsUnique | docs/en/assets/highlight.js:6 | That determines the match. |
| Moves.EndOfModeIs | docs/en/assets/highlight.js:6 | An end match closes the innermost mode that ends there, provided every mode further in leaves its end to its parent, along with the modes that end with their children; it closes none, or breaks off, exactly otherwise. |
| Moves.IterateMoves | docs/en/assets/highlight.js:6 | Where an iteration leads, told from its match: the begun mode is pushed unless a keyword rule stands next to a dot; an end match cuts the modes back and pushes the successor; the cursor, the resume flag, the guard against too many iterations and the illegal lexeme. |
| ColouredRuns.KeywordTreesCells | docs/en/assets/highlight.js:6 | Splitting a buffer into words keeps every character in place and puts exactly the words that have a keyword class within that class. |
| ColouredRuns.FlushPaints | docs/en/assets/highlight.js:6 | Flushing paints the buffer within the open nodes, by its mode's kind of content, and opens and closes no node. |
| ColouredRuns.LeavePaints | docs/en/assets/highlight.js:6 | Leaving modes closes exactly their nodes and changes no character's classes. |
| ColouredRuns.IteratePaints | docs/en/assets/highlight.js:6 | Every iteration: the kinds of the open nodes are the root's and the class names of the active modes that have one, outermost first; and the buffer handed over, if any, is painted within the classes of the modes active before the iteration. |
| ColouredRuns.HighlightPaints | docs/en/assets/highlight.js:6 | Over every run of every grammar and oracle, from new or continued modes: the open nodes are those of the active modes, and the finished tree, and the HTML as a browser reads it, is what the iterations handed over, each piece within the classes of the modes active then; a run that ends early shows the plain text. |
| ColouredRuns.CharactersShowTheirModes | docs/en/assets/highlight.js:6 | In a finished run of a grammar without skips that neither rereads nor loses nested text, every character of the text stands at its place within the classes of the modes it was buffered under, and within nothing else where the innermost buffers plain text, at most a keyword's class where it looks for keywords; a begin lexeme lies inside its mode exactly if it is not excluded, an end lexeme outside exactly if it is. |
| ColouredRuns.NestedPaints | docs/en/assets/highlight.js:6 | A nested result looks, within the classes around it, as its own run has painted it, whether that run finished or failed. |
| ColouredRuns.TameIsLossless | docs/en/assets/highlight.js:6 | The grammars described by `Lexer.Tame`, with nested runs that succeed, are of that kind. |
| Termination.EndlessFromTheStart | docs/en/assets/highlight.js:6 | A grammar on which the loop is still running after any number of iterations. |
| Termination.GroundedHighlightEnds | docs/en/assets/highlight.js:6 | For every oracle the loop ends if some rank decreases into modes begun without moving on, which do not give their end back, some weight decreases into successors, and modes that give their end back hold no keyword rules. |
| Termination.MovingIsGrounded | docs/en/assets/highlight.js:6 | That is so where every begin moves on and no mode gives its end back or has a successor. |
| Termination.EndlessIsNotGrounded | docs/en/assets/highlight.js:6 | It is not so for the endless grammar. |
| Highlighter.Highlight | docs/en/assets/highlight.js:6 | The whole function: a run that ends returns HTML in which a browser shows what the iterations handed over, each piece within the classes of the modes active then, or the plain text if it ended early; and if no iteration was a corrupting one, its text is the given one, whatever the expressions match. |
| MergeStreams.EventsUptoIs | docs/en/assets/highlight.js:6 | In a sorted stream the events at or before a position are exactly its leading ones. |
| MergeStreams.NestedPrefix | docs/en/assets/highlight.js:6 | A stream that is nested as a whole never closes the wrong element on the way. |
| MergeStreams.TextStep | docs/en/assets/highlight.js:6 | Text written up to the next event sees exactly the elements of the consumed events. |
| MergeStreams.CloseSpans | docs/en/assets/highlight.js:6 | Closing the open spans innermost first keeps the nesting, the text and the original tags. |
| MergeStreams.OpenSpans | docs/en/assets/highlight.js:6 | Opening them again outermost first restores the stack. |
| MergeStreams.MergeStreams | docs/en/assets/highlight.js:6 | For any two sorted, nested streams the loop ends, its output is well nested, has the text and the original tags unchanged, every character has exactly the elements of both documents around it, and no span is split into an empty piece. |
| DomStreams.RecordedIsMergeable | docs/en/assets/highlight.js:6 | Streams recorded from any two documents over one text meet what the merge needs. |
| DomStreams.PassesForVoidIff | docs/en/assets/highlight.js:6 | An element passes for void exactly if one of the four names stands anywhere in its own. |
| DomStreams.StreamAllTags | docs/en/assets/highlight.js:6 | The recorded events are the document's tags in order, without end tags for what passes for void. |
| DomStreams.ExpectedFromDoms | docs/en/assets/highlight.js:6 | What the streams say is open at a character are its elements in the one document and inside them its elements in the other. |
| DomStreams.NestsInHtmlIff | docs/en/assets/highlight.js:6 | The merged HTML is well nested as a browser reads it exactly when no element passes for void without being void in HTML. |
| DomStreams.AbbrPassesForVoid | docs/en/assets/highlight.js:6 | An `abbr` does pass for void wrongly; a `wbr` passes for void and is. |
| DomStreams.MergedHtmlKeepsText | docs/en/assets/highlight.js:6 | Whatever the attribute values are, the merged HTML without its tags is the escaped text. |
| MergedHtml.StartTagReads | docs/en/assets/highlight.js:6 | From a written start tag its name and all its attributes can be read back, in order, whatever their values are. |
| MergedHtml.MergedHtmlReads | docs/en/assets/highlight.js:6 | The merged HTML read back is every character, every start tag with its attributes and every end tag, in order, and nothing else. |
| DomStreams.MergeBlock | docs/en/assets/highlight.js:6 | Merging a highlighted block back into its document: nesting, text, the tags of the original document, around every character its elements of that document and inside them its spans of the highlighted one, and when a browser agrees. |
| Callbacks.RemoveOneSplits | docs/en/assets/jquery.js:2 | The index repair keeps callbacks already called behind the index and the others ahead of it, in order, minus the removed one. |
| Callbacks.RemoveSplits | docs/en/assets/jquery.js:2 | The same for any set of callbacks removed by the running one: none is run twice, none is missed. |
| Callbacks.AddAtRest | docs/en/assets/jquery.js:2 | Adding to a list that has fired fires exactly the added callbacks with the remembered arguments. |
| Callbacks.OnceMemoryStep | docs/en/assets/jquery.js:2 | On a once and memory list every operation changes the calls made and to come by exactly what it says, and the arguments never change after the first fire. |
| Callbacks.EmptyingSkipsLaterAdditions | docs/en/assets/jquery.js:2 | After emptying inside a callback, all later additions are called only if the index is still before the first position. |
| Callbacks.EmptiedListForgets | docs/en/assets/jquery.js:2 | A list emptied by its only callback, which then adds another one that is never called. |
| Callbacks.DisablingIsFinal | docs/en/assets/jquery.js:2 | After disabling, even inside a running callback, no callback is called any more, neither one still to come nor one added later. |
| Callbacks.CalledAsOftenAsAdded | docs/en/assets/jquery.js:2 | However add, remove and fire nest, a callback never removed runs exactly as often as it was added, always with the first fire's arguments; emptying a list that has called all its callbacks does not change this. |
| Callbacks.CalledInOrderOfAddition | docs/en/assets/jquery.js:2 | Without removals the calls come in the order of addition. |
| CallbackLaws.CalledOncePerFire | docs/en/assets/jquery.js:2 | For every combination of once and memory and every run of additions, removals, fires and returns, nested or not: a callback never removed has been called with some arguments, or will be before the list comes to rest, once for each fire with them after its addition, and once more for each addition while they were in use; at rest it has been. |
| CallbackLaws.ArgumentsInUse | docs/en/assets/jquery.js:2 | The arguments in use at rest are those of the last fire on a list that remembers, of the first if it fires once, and none on other lists. |
| CallbackLaws.AdditionAtRest | docs/en/assets/jquery.js:2 | An addition to a list at rest that remembers appends exactly the added callbacks to the calls, in order, with the arguments in use. |
| CallbackLaws.FireAtRest | docs/en/assets/jquery.js:2 | A fire of a list at rest appends every callback added so far, in order, with its arguments. |
| CallbackLaws.LogIsByActs | docs/en/assets/jquery.js:2 | The whole log of a list that remembers and may fire again, over every sequence of additions and fires, by these alone: every fire calls all that was added before it, every later addition what it adds, with the arguments of the last fire. |
| CallbackLaws.UniqueListHasNoRepeats | docs/en/assets/jquery.js:2 | With the unique flag a list never holds a callback twice, over any run. |
| CallbackLaws.AppendUnique | docs/en/assets/jquery.js:2 | Such a list keeps what it has, in order, and grows without repeating anything. |
| CallbackLaws.AppendMembers | docs/en/assets/jquery.js:2 | With or without the flag it has what it had and what was added, and nothing else. |
| CallbackLaws.FalseEndsFire | docs/en/assets/jquery.js:2 | On a list that stops on false, a callback returning false is the last of its fire; on others it makes no difference. |
| CallbackLaws.LockFixesArguments | docs/en/assets/jquery.js:2 | After a lock no callback is ever called with other arguments than those in use at the time, over any run. |
| CallbackLaws.LockSpares | docs/en/assets/jquery.js:2 | Locking cuts no firing short and lets a list keep what it remembers; a list that has nothing to remember is disabled. |
| CallbackList.SpliceOut | docs/en/assets/jquery.js:2 | The search and splice loop removes all occurrences and moves the index back by exactly those at or before it. |
| CallbackList.CallbackList.Remove | docs/en/assets/jquery.js:2 | Removing is the machine's removal for every argument in turn. |
| CallbackList.CallbackList.Add | docs/en/assets/jquery.js:2 | Adding, with the renewed firing where arguments are remembered, is a run of the machine that starts with the addition; `CallbackLaws` says which calls that makes. |
| CallbackList.CallbackList.FireWith | docs/en/assets/jquery.js:2 | Firing is such a run; inside a running callback it only queues the arguments. |
| CallbackList.CallbackList.Lock | docs/en/assets/jquery.js:2 | Locking is one step of the machine. |
| CallbackList.CallbackList.Disable | docs/en/assets/jquery.js:2 | Disabling is one step of the machine. |
| CallbackList.CallbackList.Empty | docs/en/assets/jquery.js:2 | Emptying is one step of the machine and leaves the index alone. |
| CallbackList.CallbackList.FireAll | docs/en/assets/jquery.js:2 | The firing loop ends for scripts of callback bodies that extend list or queue while it runs, and every execution is a run of the machine. |
| Deferred.FirstCallSettles | docs/en/assets/jquery.js:2 | The first resolve or reject of a pending deferred settles it, with its arguments, before user code runs again. |
| Deferred.StepKeepsInv | docs/en/assets/jquery.js:2 | Every step keeps the phases of the six lists, loses no call, and never changes a settled state. |
| Deferred.DeadForever | docs/en/assets/jquery.js:2 | A list disabled by the other outcome never calls anything again. |
| Deferred.SettlesOnce | docs/en/assets/jquery.js:2 | In every run the state leaves pending at most once. |
| Deferred.SettledCalls | docs/en/assets/jquery.js:2 | After settling, no handler of the other outcome is ever called and those of this one are called exactly once per addition, in order, with the same arguments. |
| DeferredLaws.ListsRun | docs/en/assets/jquery.js:2 | However the operations nest, each of the six lists is a callback list that has gone through its own operations one at a time, so all laws of callback lists hold of it. |
| DeferredLaws.HandlersOfUnlockedLists | docs/en/assets/jquery.js:2 | As long as a list is not locked, its handlers are called once for every fire after their addition: progress handlers for every notification. |
| DeferredLaws.NotifyStarts | docs/en/assets/jquery.js:2 | A notification of an undecided deferred starts its progress list with its arguments. |
| DeferredLaws.NotificationsArePassedOn | docs/en/assets/jquery.js:2 | Whenever the progress list starts on a notification, it first passes it on, with its arguments, to the handlers `then` has added. |
| DeferredLaws.SettledNotifiesNothing | docs/en/assets/jquery.js:2 | Once a deferred has settled and user code runs again, both progress lists are locked and notify does nothing. |
| UniqueSort.CollectRepeats | docs/en/assets/jquery.js:2 | The upward loop collects exactly the positions that repeat their predecessor, ascending. |
| UniqueSort.Results.SpliceFromBack | docs/en/assets/jquery.js:2 | Splicing them from the back leaves exactly the elements that do not repeat their predecessor: no position goes stale. |
| UniqueSort.KeepHolds | docs/en/assets/jquery.js:2 | What is left of a sorted list is strictly increasing and has the same elements. |
| UniqueSort.IncreasingListingIsUnique | docs/en/assets/jquery.js:2 | A set has only one strictly increasing listing, so the result is determined. |
| UniqueSort.EqualNodesAreCompared | docs/en/assets/jquery.js:2 | Any sort whose order is decided by its comparisons compares two equal nodes if there are any. |
| UniqueSort.FlagIsExact | docs/en/assets/jquery.js:2 | So its comparisons meet a node twice exactly if the list has a duplicate. |
| UniqueSort.NeighboursDecide | docs/en/assets/jquery.js:2 | On a sorted list, comparing neighbours is such a sort. |
| UniqueSort.ArrangedSorts | docs/en/assets/jquery.js:2 | The order a sort arrives at gives a sorted list of the same nodes, without repeated neighbours if there was no duplicate. |
| UniqueSort.Results.Sort | docs/en/assets/jquery.js:2 | After any sort by comparisons the list is in the order it arrived at, and the flag is up exactly if the engine does not compare equal nodes or there is a duplicate. |
| UniqueSort.Results.UniqueSort | docs/en/assets/jquery.js:2 | The list becomes strictly increasing in document order with the same set of elements, whatever sort by comparisons the host uses and whether or not its engine compares equal nodes. |
| CacheKeys.MemoStringDecodes | src/Core/Checkout/Service/PaymentMethodFilterService.php:217-221 | The joined string determines space, integration and fingerprint, as long as the integration has no separator. |
| CacheKeys.IntegrationsHaveNoBar | src/Core/Settings/Options/Integration.php:15-22 | None of the integrations contains the separator. |
| CacheKeys.BarInIntegrationIsAmbiguous | src/Core/Checkout/Service/PaymentMethodFilterService.php:217-221 | With a separator inside the integration two questions would share one string. |
| CacheKeys.PossibleMethodsKeyDecodes | src/Core/Checkout/Service/PaymentMethodFilterService.php:309-311 | The cache key determines the checkout state and the transaction. |
| CacheKeys.ConfigurationKeyDecodes | src/Core/Checkout/Service/PaymentMethodFilterService.php:370-371 | The configuration key determines space, language and version. |
| CacheKeys.DecimalReads | src/Core/Checkout/Service/PaymentMethodFilterService.php:328-331 | The string an ID is cast to reads as that number. |
| PaymentFilter.AllowedHasProvenance | src/Core/Checkout/Service/PaymentMethodFilterService.php:184-196 | One call keeps memo and cache justified by answers of the gateway, and the list it uses is such an answer for the very question; a miss uses one no older than the lifetime for the transaction prepared in the call, and without a lifetime one fetched in it. |
| PaymentFilter.EveryListHasProvenance | src/Core/Checkout/Service/PaymentMethodFilterService.php:232-341 | The same after every interleaving of calls, contexts, evictions and clock ticks. |
| PaymentFilter.MemoServesBlock | src/Core/Checkout/Service/PaymentMethodFilterService.php:176-200 | After a success, later calls with the same key on the same context prepare and fetch nothing and use the same list, whatever happens elsewhere. |
| PaymentFilter.CacheServesUntilExpiry | src/Core/Checkout/Service/PaymentMethodFilterService.php:308-338 | A stored answer is used again without asking until its lifetime is over, and not from then on. |
| PaymentFilter.FetchedIsAnswer | src/Core/Checkout/Service/PaymentMethodFilterService.php:321-340 | A list fetched from the gateway is its answer of that moment, number by number, and is logged as such. |
| PaymentFilter.FailureLeavesNoMemo | src/Core/Checkout/Service/PaymentMethodFilterService.php:187-196 | A call whose preparation or fetch fails changes nothing, so the next one tries again. |
| PaymentFilter.PageAndListAgree | src/Core/Checkout/Service/PaymentIntegrationService.php:99-116 | The transaction the confirm page reports is the one the list in use was fetched for. |
| StableSorting.StableSortSorts | src/Core/Checkout/Service/PaymentMethodFilterService.php:414-416 | The sort orders by key and keeps the elements of every key in their order. |
| StableSorting.StableSortIsUnique | src/Core/Checkout/Service/PaymentMethodFilterService.php:414-416 | There is only one sequence with that property. |
| FilteredCollection.LastMatchIsLast | src/Core/Checkout/Service/PaymentMethodFilterService.php:379-395 | The configuration of a method is the last one of the space with an allowed ID in list order, and there is none exactly if no configuration qualifies. |
| FilteredCollection.FilteredDisplays | src/Core/Checkout/Service/PaymentMethodFilterService.php:379-418 | The result shows exactly the foreign methods and the own ones that have a configuration of the space with an allowed ID, each once, by position with null as zero, and in the order they came in where positions are equal. |
| FilteredCollection.AttachedCarries | src/Core/Checkout/Service/PaymentMethodFilterService.php:379-412 | A kept own method carries the last configuration that lets it be shown; any other method what it carried before. |
| FilteredCollection.FilteredKeyed | src/Core/Checkout/Service/PaymentMethodFilterService.php:399-418 | The result is keyed by ID again and holds no method that was not there before. |
| FilteredCollection.FilteringTwiceIsOnce | src/Core/Checkout/Service/PaymentMethodFilterService.php:176-200 | Filtering the first pass's result again with the same list gives the identical sequence. |
| FilterService.ConfigurationMap | src/Core/Checkout/Service/PaymentMethodFilterService.php:379-395 | The loop builds the map of the last qualifying configuration per method. |
| FilterService.MapHoldsLastMatch | src/Core/Checkout/Service/PaymentMethodFilterService.php:379-395 | Looking a method up in that map is asking for its last qualifying configuration. |
| FilterService.KeepAllowed | src/Core/Checkout/Service/PaymentMethodFilterService.php:397-412 | The loop keeps exactly the shown methods in order, attaches the configuration to the kept own ones and leaves the others alone. |
| FilterService.RemoveAll | src/Core/Checkout/Service/PaymentMethodFilterService.php:277-286 | What is left is exactly the methods whose ID is not among the given ones, each once and in their order; a method is in it if and only if it was there and its ID is not among them. |
| FilterService.PaymentMethodFilterService.FetchAvailablePaymentMethodIds | src/Core/Checkout/Service/PaymentMethodFilterService.php:301-341 | A fresh cached answer is returned as it is; otherwise the gateway is asked and its answer stored with the lifetime, if there is one. |
| FilterService.PaymentMethodFilterService.AllowedIds | src/Core/Checkout/Service/PaymentMethodFilterService.php:184-196 | Memo, cache, gateway and the memo written back, as one call of the model. |
| FilterService.PaymentMethodFilterService.Configurations | src/Core/Checkout/Service/PaymentMethodFilterService.php:370-377 | What is returned is what the store answered for this space, language and version since the last reset. |
| FilterService.PaymentMethodFilterService.Reset | src/Core/Checkout/Service/PaymentMethodFilterService.php:128-131 | Forgets every lookup and keeps the cache consistent. |
| FilterService.PaymentMethodFilterService.BuildFilteredCollection | src/Core/Checkout/Service/PaymentMethodFilterService.php:356-419 | The result shows exactly what may be shown, by position, and each kept own method carries its last qualifying configuration. |
| FilterService.PaymentMethodFilterService.FilterPaymentMethods | src/Core/Checkout/Service/PaymentMethodFilterService.php:149-201 | Missing settings leave exactly the methods that are not own, in order; a missing customer changes nothing; a failure shows nothing and changes no method; otherwise exactly what may be shown by the list in use is shown, by position, with the right configurations. |
| FilterService.ConfirmPage | src/Core/Checkout/Service/PaymentMethodFilterService.php:176-200 | Two passes on one context show the identical collection and ask the gateway at most once, whatever it would answer later. |
| Migration.PlacedColumn | src/Migration/Migration1766067106TransactionEntity.php:224-231 | Adding a missing column anywhere adds exactly that name and type. |
| Migration.PlacedBehind | src/Migration/Migration1766067106TransactionEntity.php:142-152 | A column added behind another stands right behind it; the others keep their order. |
| Migration.EnsureGrows | src/Migration/Migration1766067106TransactionEntity.php:224-291 | A step only adds, keeps all rows, and when it goes through what it ensures is there. |
| Migration.EnsureAllResumes | src/Migration/Migration1766067106TransactionEntity.php:141-214 | Steps stopped after any statement and begun again end as if they had not been stopped. |
| Migration.EnsureAllKeepsVerdict | src/Migration/Migration1766067106TransactionEntity.php:99-133 | No sequence of steps without exclusive columns changes whether a table counts as the old plugin's. |
| Migration.StepsKeepVerdict | src/Migration/Migration1766067106TransactionEntity.php:100-155 | The columns that are added are disjoint from the exclusive ones. |
| Migration.OldPluginTableIff | src/Migration/Migration1766067106TransactionEntity.php:99-133 | A table counts as the old plugin's exactly if it has each of the seven columns with its type. |
| MigrationRuns.StoppedRunResumes | src/Migration/Migration1766067106TransactionEntity.php:47-75 | Unless a table is left behind, a run stopped anywhere and begun again ends with the schema and verdict of one run. |
| MigrationRuns.LeftBehindFails | src/Migration/Migration1766067106TransactionEntity.php:47-69 | With a table left behind the second run fails although the first went through. |
| MigrationRuns.LeftBehindExample | src/Migration/Migration1766067106TransactionEntity.php:47-69 | A shop on which that happens. |
| MigrationRuns.ResumesExactlyUnlessLeftBehind | src/Migration/Migration1766067106TransactionEntity.php:47-75 | Stopping after any prefix and running again equals one run, and a further run changes nothing, if and only if no table is left behind. |
| MigrationRuns.ForeignTablesSurvive | src/Migration/Migration1766067106TransactionEntity.php:57-72 | No number of runs, however stopped, alters or renames the old plugin's table or any other foreign one, up to keys that follow renamed tables. |
| MigrationRuns.RowsSurvive | src/Migration/Migration1766067106TransactionEntity.php:47-69 | No number of runs, however stopped, loses the rows of any table. |
| Installations.EnsureAllAdds | src/Migration/Migration1766067106TransactionEntity.php:141-193 | Steps that go through add exactly their columns and keys and keep a key whose name is taken. |
| Installations.UpgradeEnds | src/Migration/Migration1766067106TransactionEntity.php:57-69 | An upgrade that goes through ends with the old columns and those made sure of, with the old keys and the final ones whose names were free, and the refund key follows the table exactly if it referenced it or was missing. |
| Installations.UpgradeTypes | src/Migration/Migration1766067106TransactionEntity.php:141-155 | After an upgrade every column the table had keeps its type, and each of the thirteen that was missing is there with its own. |
| Installations.UpgradeHasIndexes | src/Migration/Migration1766067106TransactionEntity.php:157-203 | An upgrade that goes through has all five indexes, and the refund table its own. |
| Installations.UpgradeGoesThrough | src/Migration/Migration1766067106TransactionEntity.php:141-214 | On a server that refuses only for a missing table, a missing column to stand behind or a taken name within a table, an upgrade goes through if and only if the final name is free, the refund table exists and the first column has a place. |
| Installations.AddsOneColumn | src/Migration/Migration1684240994TransactionEntity.php:32-37 | An earlier migration that adds one column adds exactly it. |
| Installations.VersionMigration | src/Migration/Migration1605701048TransactionEntity.php:34-66 | The version migration adds its column and replaces the four original keys by the three final ones. |
| Installations.ChainEnds | src/Migration/Migration1590156974TransactionEntity.php:33-57 | The earlier migrations on a shop without the temporary table leave one with the final columns and keys, and a refund table that references it unless there was one, which stays as it was. |
| Installations.FreshBranchAtTarget | src/Migration/Migration1766067106TransactionEntity.php:47-53 | For any server and schema, a fresh installation that goes through is at the target (final columns, final keys, refund key on the final name) if and only if its table has exactly these and the refund key references it under the temporary or the final name. |
| Installations.FreshAtTarget | src/Migration/Migration1766067106TransactionEntity.php:47-53 | After the earlier migrations on any shop without the temporary table it goes through exactly if the final name is free, and is then at the target exactly if there was no refund table or its key references the temporary or the final name. |
| Installations.ExistingRefundTableIsKept | src/Migration/Migration1766067106TransactionEntity.php:47-53 | A fresh installation that goes through and leaves the refund key on the old name. |
| Installations.UpgradeAtTarget | src/Migration/Migration1766067106TransactionEntity.php:57-69 | For any server and schema, an upgrade that goes through is at the target if and only if the old table has the identifier, no column and no key besides the final ones, and the refund key is missing or references it under its old or final name. |
| Installations.OriginalKeysSurvive | src/Migration/Migration1766067106TransactionEntity.php:262-291 | An upgrade of a table as the first migration made it goes through and keeps a cascading key that the final table does not have. |
| MigrationScript.Connection.ExecuteStatement | src/Migration/Migration1766067106TransactionEntity.php:228-230 | A statement takes effect at once or not at all. |
| MigrationScript.TransactionMigration.IsOldPluginTable | src/Migration/Migration1766067106TransactionEntity.php:99-133 | The loop with flag and break answers whether all exclusive columns are there with their types. |
| MigrationScript.TransactionMigration.AddColumnIfMissing | src/Migration/Migration1766067106TransactionEntity.php:224-231 | Ensures one column. |
| MigrationScript.TransactionMigration.EnsureIndexBySql | src/Migration/Migration1766067106TransactionEntity.php:241-248 | Ensures one index. |
| MigrationScript.TransactionMigration.EnsureTheForeignKey | src/Migration/Migration1766067106TransactionEntity.php:262-291 | Ensures one foreign key by its name. |
| MigrationScript.TransactionMigration.SyncTransactionTable | src/Migration/Migration1766067106TransactionEntity.php:141-193 | The steps for the transaction table in order, ending at the first refusal or stop. |
| MigrationScript.TransactionMigration.SyncRefundTable | src/Migration/Migration1766067106TransactionEntity.php:201-214 | The same for the refund table. |
| MigrationScript.TransactionMigration.Update | src/Migration/Migration1766067106TransactionEntity.php:33-76 | The script on the connection has exactly the outcome that the theorems are about. |
| Checkout.PassingReturn | src/Core/Checkout/PaymentHandler/WeArePlanetPaymentHandler.php:242-258 | With a token in the request, the header's before the session's, a return that passes drops exactly the cart that token resolves to, whatever else the session holds, and keeps all pending transactions. |
| Checkout.PassingReturnWithoutToken | src/Core/Checkout/PaymentHandler/WeArePlanetPaymentHandler.php:245-276 | Without one, the token kept with the order is used, but only where there is a session; without a session the call fails and the cart stays. |
| Checkout.BrokenReturn | src/Core/Checkout/PaymentHandler/WeArePlanetPaymentHandler.php:206-244 | A return that neither passes nor is rejected ends in an error and changes no cart and no record. |
| Checkout.ReturnForgetsOrder | src/Core/Checkout/PaymentHandler/WeArePlanetPaymentHandler.php:202-204 | The active order is forgotten on every path, and of the rest of the session at most the old transaction number. |
| Checkout.FinalizeDrops | src/Core/Checkout/PaymentHandler/WeArePlanetPaymentHandler.php:189-277 | Over all returns a cart goes exactly if the return drops it by that rule, and all others keep their contents. |
| Checkout.RejectedReturn | src/Core/Checkout/PaymentHandler/WeArePlanetPaymentHandler.php:217-240 | After a rejected return the carts are as before and exactly the pending transaction of the context that the request's token resolves to is forgotten, by the header's token before the session's. |
| Checkout.RejectedReturnKeepsRecord | src/Core/Checkout/PaymentHandler/WeArePlanetPaymentHandler.php:225-236 | A rejected return, with a session that has no token, after which the pending transaction is still recorded. |
| Checkout.FailedPayment | src/Core/Checkout/PaymentHandler/WeArePlanetPaymentHandler.php:120-175 | After a failed payment the carts are as before, the pending transaction of the context that the request's token resolves to is gone exactly under the stated condition, always with a session and a resolved context, and nobody else's changes. |
| Checkout.FailedPaymentAnswers | src/Core/Checkout/PaymentHandler/WeArePlanetPaymentHandler.php:156-175 | What a failed payment throws, and that it takes the customer's transaction out of the session where one was asked for. |
| Checkout.CompletedPayment | src/Core/Checkout/PaymentHandler/WeArePlanetPaymentHandler.php:120-155 | When a payment goes through, and that it then forgets the pending transaction and notes the active order, or changes nothing where nothing is to be paid. |
| Checkout.SessionlessFailureKeepsRecord | src/Core/Checkout/PaymentHandler/WeArePlanetPaymentHandler.php:156-166 | A failed payment after which the pending transaction is still recorded. |
| Checkout.ContextTokenReads | src/Core/Checkout/PaymentHandler/WeArePlanetPaymentHandler.php:538-551 | The token read is the header's unless that is empty or zero, else the session's by the same test, else none; reading fails exactly without both. |
| Checkout.MovingCarries | src/Core/Checkout/Cart/CustomCartPersister.php:39-42 | Moving a cart takes it, with what is in it, from one token to the other. |
| Checkout.GuardRefuses | src/Core/Checkout/Cart/CustomCartPersister.php:20-27 | The guard refuses to delete exactly for contexts of this handler without the state raised, and then deletes nothing. |
| Checkout.LossStep | src/Core/Checkout/Cart/CustomCartPersister.php:20-42 | A step takes a cart away if and only if it is an unguarded deletion, a move, or a return past the test. |
| Checkout.CartLostOnlyInReturn | src/Core/Checkout/PaymentHandler/WeArePlanetPaymentHandler.php:206-276 | Over every run, a checkout with this handler loses its cart only in a return that got past the test or had nothing to pay. |
| Checkout.RetryFindsCart | src/Core/Checkout/Cart/CustomCartPersister.php:20-27 | Whatever guarded deletions, payments with any outcome and returns that do not get past the test happen in between, and whatever happens to other carts, the cart is there with its contents. |
| CheckoutHandler.CustomCartPersister.IsWhiteLabelPayment | src/Core/Checkout/Cart/CustomCartPersister.php:49-58 | True exactly if the context has a payment method and this handler is in charge of it. |
| CheckoutHandler.CustomCartPersister.Delete | src/Core/Checkout/Cart/CustomCartPersister.php:20-27 | Deletes the cart unless it is guarded. |
| CheckoutHandler.CustomCartPersister.Replace | src/Core/Checkout/Cart/CustomCartPersister.php:39-42 | Moves a cart to another token. |
| CheckoutHandler.TransactionService.ClearTransactionIdFromContext | src/Core/Api/Transaction/Service/TransactionService.php:1253-1259 | Forgets the pending transaction of the context's channel and customer, and nothing without a customer. |
| CheckoutHandler.PaymentHandler.GetContextToken | src/Core/Checkout/PaymentHandler/WeArePlanetPaymentHandler.php:538-551 | The header's token, else the session's, else none; without a session the read itself fails. |
| CheckoutHandler.PaymentHandler.Pay | src/Core/Checkout/PaymentHandler/WeArePlanetPaymentHandler.php:120-176 | Session, pending transactions and answer after a payment, on every path. |
| CheckoutHandler.PaymentHandler.Finalize | src/Core/Checkout/PaymentHandler/WeArePlanetPaymentHandler.php:189-277 | Session, carts, pending transactions and answer after a return, on every path. |
| CartRecovery.RebuiltRebuilds | src/Core/Checkout/Service/CartRecoveryService.php:77-198 | The rebuilt cart entry by entry: with the route, one call for each container that has a product, in order, with the container's template, quantity and flags, its first product, and under each reference exactly what the last option of the container with it says; then every parentless product with its quantity and payload, in order; and nothing else. |
| CartRecovery.CustomizedEntryIs | src/Core/Checkout/Service/CartRecoveryService.php:149-198 | The call of one container, field by field. |
| CartRecovery.OptionsSpeak | src/Core/Checkout/Service/CartRecoveryService.php:225-272 | A reference is among the values exactly if some option of the container speaks for it, and then holds what the last such option says: the last file of an upload, or the plain value. |
| CartRecovery.ChildProductReturns | src/Core/Checkout/Service/CartRecoveryService.php:149-216 | A child product comes back if and only if the route exists, its parent is a container and it is the first product of it. |
| CartRecovery.SecondProductIsLost | src/Core/Checkout/Service/CartRecoveryService.php:207-216 | The second product of a container does not come back. |
| CartRecovery.NothingRebuiltIff | src/Core/Checkout/Service/CartRecoveryService.php:77-122 | The rebuilt cart is empty exactly if the order has neither a parentless product nor, with the route, a container with a product. |
| CartRecovery.MissingReference | src/Core/Checkout/Service/CartRecoveryService.php:243-272 | A reference is missing from the option values exactly if no option with it has anything to say. |
| CartRecovery.LastContribution | src/Core/Checkout/Service/CartRecoveryService.php:243-272 | Under a reference stands what the last option with it had to say. |
| CartRecovery.UploadsKeepOneFile | src/Core/Checkout/Service/CartRecoveryService.php:251-264 | All files of an upload are kept if and only if there is at most one. |
| CartRecoveryService.Recovery.HasCustomProducts | src/Core/Checkout/Service/CartRecoveryService.php:130-139 | True exactly if some item is a container. |
| CartRecoveryService.Recovery.GetCustomProduct | src/Core/Checkout/Service/CartRecoveryService.php:207-216 | The first product of the container, if any. |
| CartRecoveryService.Recovery.GetCustomProductOptions | src/Core/Checkout/Service/CartRecoveryService.php:225-235 | The options of the container in order. |
| CartRecoveryService.Recovery.GetOptionValues | src/Core/Checkout/Service/CartRecoveryService.php:243-272 | The nested loops build the option values by the last contribution. |
| CartRecoveryService.Recovery.AddCustomProducts | src/Core/Checkout/Service/CartRecoveryService.php:149-198 | The loop makes the calls of the containers in order on the stored cart. |
| CartRecoveryService.Recovery.RecreateCartFromOrder | src/Core/Checkout/Service/CartRecoveryService.php:77-122 | The cart is, entry by entry, the one rebuilt from the order, whatever cart the session had before; what is stored is the rebuilt cart, or, if it is empty, what the deletion through the guarded persister has left. |
| CartRecoveryService.OldCartStaysIff | src/Core/Checkout/Service/CartRecoveryService.php:79-87 | The cart that was stored before is still there exactly if the persister refuses to delete it and the order has nothing that can be rebuilt. |
| Recurring.RoundNear | src/Core/Checkout/PaymentHandler/WeArePlanetPaymentHandler.php:533-536 | Rounding moves an amount by at most half a cent, a half away from zero. |
| Recurring.RoundNearest | src/Core/Checkout/PaymentHandler/WeArePlanetPaymentHandler.php:533-536 | No amount of whole cents is closer. |
| Recurring.RoundExact | src/Core/Checkout/PaymentHandler/WeArePlanetPaymentHandler.php:533-536 | Exactly the amounts of whole cents stay as they are. |
| Recurring.RoundedInCents | src/Core/Checkout/PaymentHandler/WeArePlanetPaymentHandler.php:533-536 | A rounded amount has two decimals and rounding it again changes nothing. |
| Recurring.RoundMonotone | src/Core/Checkout/PaymentHandler/WeArePlanetPaymentHandler.php:533-536 | Rounding keeps the order of amounts. |
| Recurring.CopyKeepsTotal | src/Core/Checkout/PaymentHandler/WeArePlanetPaymentHandler.php:393-400 | The total of n items moves by at most n times half a cent. |
| Recurring.CopyOfCentsIsExact | src/Core/Checkout/PaymentHandler/WeArePlanetPaymentHandler.php:393-400 | It does not move when all amounts are whole cents. |
| Recurring.CopyOfCopy | src/Core/Checkout/PaymentHandler/WeArePlanetPaymentHandler.php:483-525 | The copy of a copy is the copy: neither cents nor letters are lost after the first time. |
| Recurring.ItemCopyCopies | src/Core/Checkout/PaymentHandler/WeArePlanetPaymentHandler.php:483-525 | Field by field: name, SKU and unique ID are the item's own, each cut to its limit; the amount is rounded; attributes and taxes are kept in order, cut to their limits; everything else is equal. |
| Recurring.CopiesOnce | src/Core/Checkout/PaymentHandler/WeArePlanetPaymentHandler.php:483-525 | That determines the copy. |
| Recurring.LineItemCreateFromSdk | src/Core/Checkout/PaymentHandler/WeArePlanetPaymentHandler.php:483-525 | The loops copy attributes and taxes in order, cut to their limits, and leave empty lists unset. |
| Recurring.CopyLineItems | src/Core/Checkout/PaymentHandler/WeArePlanetPaymentHandler.php:393-400 | One copy for each line item, in order, each with its item's fields. |
| Recurring.OriginalPayment | src/Core/Checkout/PaymentHandler/WeArePlanetPaymentHandler.php:338-355 | The payment charged again is the first paid one of the first of the earliest orders, and there is none exactly if that order has none. |
| Recurring.ChargeFailsWhereReturnIsRefused | src/Core/Checkout/PaymentHandler/WeArePlanetPaymentHandler.php:411-419 | A charge fails its order in exactly the states in which a returning customer is refused, and reopens it only for a transaction that was merely created. |

## Left out

- highlight.js: regular expression engines (a match oracle takes their place), the grammars themselves, relevance scoring, language detection, the debug mode that rethrows, and line break options.
- highlight.js: the rule position stored with a match is shared between cached matchers of a mode; it is taken as arbitrary, so nothing here rests on it.
- highlight.js: a nested result enters as a value; `Lexer.Genuine` says of which run it is the outcome, and which of several languages is chosen for a text is left out.
- Termination.GroundedHighlightEnds: the condition is sufficient, not necessary: whether a run ends also depends on what the expressions match.
- ColouredRuns.CharactersShowTheirModes: a mode that skips hands its lexeme on to be written with the text around it, under the modes active when that is flushed; `ColouredRuns.HighlightPaints` covers it, this statement does not.
- MergedHtml.MergedHtmlReads: element and attribute names are taken to be names (no closing bracket, no blank or leading slash in an element's, no equals sign in an attribute's); values are arbitrary.
- highlight.js: browser nodes are values with lower-case names; reading them from a live document is not modelled.
- DomStreams.NestsInHtmlIff: elements such as `embed`, `link` or `meta` are void in HTML but do not pass for void; they are recorded and written with a closing tag, which a browser ignores, and count as pairs here.
- jQuery: callbacks that throw, nested argument lists of `add`, and the `fired` and `has` queries.
- jQuery: DOM, events, animation and requests.
- Deferred.Step: the deferred is a machine over values, not an object; `then` and the resolution of promises are represented by the lists they add handlers to.
- UniqueSort.Results.Sort: the tie-breaking by original position for nodes outside a document is not modelled.
- PaymentFilter.EveryListHasProvenance: the digest is assumed not to collide on the questions that were asked, and to have one width.
- PaymentFilter: the payload fingerprint is part of the question; how it is computed, and how a transaction is prepared, is not part of this model.
- FilterService: language IDs are taken to have no underscore, as hexadecimal IDs do.
- FilterService: the configuration store, the settings and the cart service answer through parameters; a cached value that is not a list is not modelled, because only lists are stored.
- Migration: SQL types beyond name and type, collations, indexes a server makes by itself, and letter case of column names (names are lower case here).
- Migration: the existence checks are exact; the wildcard in the table name pattern, which matches names of equal length only, is not modelled.
- Migration: a server may refuse any statement, but decides by schema and statement alone; a statement that fails for reasons of the moment counts as a stop.
- MigrationScript.TransactionMigration.SyncTransactionTable: the sequence of calls is a list that is gone through, where the source has one call after the other.
- Installations.UpgradeGoesThrough: a server such as InnoDB also wants an index on the referenced `transaction_id`, which none of the steps adds, columns and tables that a new key refers to, and key names that are unique in the whole schema; such refusals are outside this statement, while all others allow any refusal.
- Installations: index names and the order of columns are not compared, because they do differ between installations.
- Checkout: the session is read as it is when a request comes in; locale headers, logging and address copying are left out.
- Checkout.FailedPayment: making the gateway transaction is a parameter: it succeeds and the record is gone, or it fails and leaves any record.
- CartRecoveryService.Recovery.RecreateCartFromOrder: the shop's cart service is a map of carts in front of the stored ones that stores a cart on every addition; its rules for merging, pricing or refusing items are not modelled.
- CartRecoveryService.Recovery.CallRoute: the customized products route adds one entry that records the call; what it computes from it is not part of this model.
- Recurring: amounts are real numbers, so the binary representation of a float is not modelled; addresses and the remaining fields are copied one by one and left out.
- Administration, privileges, invoices, plugin lifecycle and the gateway's SDK.
