# Titanium Mobile for Android: build-script bookkeeping and runtime core, in Dafny

This project models five pieces of the Titanium Mobile Android runtime and its build script,
each in the form the original code has:

- **The Android build script** (`support/android/builder.py`).
  - Pure functions: `dequote`, the properties-file reader, the resource-copy filter `include_path`, and `strip_slash`/`make_relative`.
  - Imperative code, as methods with loops proved against specification functions: the permission and activity aggregation of `generate_android_manifest`, the permissions XML, and the placeholder substitution in `AndroidManifest.xml`.
- **`TiContext`**, the per-window JavaScript context, as a class. It covers:
  - base-URL normalisation, `absoluteUrl` with its `..` resolution loop, and `resolveUrl` up to the file factory;
  - the weakly referenced lifecycle-listener list, with add, remove and dispatch;
  - menu and configuration dispatch;
  - `evalFile`, `evalJS` and `release`.
- **`TableViewModel`** as a class. `getViewModel` flattens the sections into header, row and footer items with running row numbers. Also `getViewIndex`, `getRowCount`, `setDirty` and `release`.
- **`TabGroupProxy`** (with its tabs) as classes. It covers:
  - tag derivation when a tab is added;
  - `indexForId` and `buildFocusEvent`;
  - the open and close life cycle with `releaseViews`.
- **`TiBaseActivity`** as a class. It covers:
  - the activity-source check of `onCreate`, the intent-flag defaults and the window setup;
  - `onCreateOptionsMenu`;
  - the id map `onPrepareOptionsMenu` builds;
  - `onOptionsItemSelected`.

Files:

- `wrappers.dfy`: Option, Result and the Java exceptions the code raises.
- `strings.dfy`: the Java/Python string operations the code relies on (`indexOf`, `split`, `join`, `replace`, `strip`), with their own properties.
- `builder.dfy`, `context.dfy`, `tableview.dfy`, `tabgroup.dfy`, `activity.dfy`: one per core file.

How the outside world enters the model:

- A Java `null` is `None`.
- A thrown exception is a `Failure` result.
- Library code whose source is not part of this model becomes input. This covers `java.net.URI`, `android.net.Uri`, `TiFileFactory.isLocalScheme` and `TiFileHelper2.joinSegments`. They are function fields of a `Platform` value.
- Garbage collection of weakly referenced listeners is an input: the set of listeners still reachable.
- A listener's behaviour (whether it throws, what a menu listener answers) is an input.

Four places where the model follows the code rather than the obvious intent:

- `TiBaseActivity.onCreate` builds the content layout from the `vertical` extra. It then rebuilds it with `vertical == false` (`TiBaseActivity.java:148`). `OnCreate` states that the final layout is never vertical.
- The Google-API check in `generate_android_manifest` never takes effect (see Findings). `AddActivityOf`, `CollectManifestEntries`, `MappedActivitiesAsWritten` and `GenerateManifestContents` model the code as written. `AddActivityOfChecked`, `CollectActivitiesChecked` and `MappedActivities` model the evidently intended skip.
- `TabGroupProxy.handleAddTab` asks for the view through `getView`, which the class makes throw (see Findings). `AddTab` and `HandleAddTab` model that. `AddTabAttaching` and `HandleAddTabAttaching` attach the tab as intended.
- `TabGroupProxy.addTabToGroup` uses the tab's window proxy before testing it for null (see Findings). `HandlePostOpenAsWritten` models that. `HandlePostOpen` tests the window first, as intended.

## Model

| member | source | states |
|---|---|---|
| Builder.Dequote | support/android/builder.py:25-28 | A value not starting with `"` is returned unchanged. Otherwise the first and the last character are dropped, and a lone quote gives the empty string. |
| Builder.DequoteQuoted | support/android/builder.py:25-28 | Dequoting a quoted value gives the value back. |
| Builder.KeyEnd | support/android/builder.py:43-44 | The key ends at the first `:`, `=` or space, or at the end of the line. No separator occurs before that point. |
| Builder.PropertyKey | support/android/builder.py:45 | The key is the part of the line before its first separator with the trailing whitespace removed. Only whitespace lies between the key and the separator, and the key holds no separator. |
| Builder.PropertyValue | support/android/builder.py:46 | The value is a slice of the text after the key. Only separator characters (`:`, `=`, space) come before it, it does not start with one, only whitespace follows it, and it does not end in whitespace. |
| Builder.ParseLine | support/android/builder.py:38-46 | A line is skipped exactly when it is blank or its stripped form starts with `!` or `#`. |
| Builder.ParseLineWithoutSeparator | support/android/builder.py:43-47 | A line with no separator defines its stripped text as a key with an empty value. |
| Builder.ParseLineOfDefinition | support/android/builder.py:38-47 | A line `key=value`, with a plain key and a value without surrounding padding, parses back as exactly that key and value. |
| Builder.ReadProperties | support/android/builder.py:35-49 | The loop builds the dictionary of the parsed lines, with later definitions overwriting earlier ones. |
| Builder.PropertiesKeys | support/android/builder.py:35-49 | A key is in the dictionary if and only if some line defines it. |
| Builder.PropertiesLastWins | support/android/builder.py:35-49 | A key's value is the one given by the last line that defines it. |
| Builder.Basename | support/android/builder.py:321-322 | The basename is the suffix after the last `/` and holds no `/`. |
| Builder.IncludePath | support/android/builder.py:321-324 | A path is skipped exactly when its basename is an ignored directory name (for a directory) or an ignored file name (for a file). |
| Builder.IncludePathByName | support/android/builder.py:321-324 | Whether `dir/name` is copied depends only on `name` and the file/directory flag. An ignored directory name excludes only directories. An ignored file name excludes only files. |
| Builder.StripSlash | support/android/builder.py:344-346 | Exactly one leading `/` or `\` is removed; any other string is unchanged. |
| Builder.PathJoin | support/android/builder.py:351 | An absolute second part replaces the first. Otherwise the result is the first part, then a `/` unless the first part is empty or already ends in one, then the second part. |
| Builder.RelativePart | support/android/builder.py:349 | The part of the path after `relativeTo`, less one leading slash, is a suffix of the path. It is empty when `relativeTo` is longer than the path. |
| Builder.MakeRelative | support/android/builder.py:348-352 | The result ends with the relative part of the path. With a prefix, that part is joined under the prefix. |
| Builder.MakeRelativeOfJoin | support/android/builder.py:348-352 | Making `os.path.join(dir, rel)` relative to `dir` gives back `rel`. With a prefix it gives `os.path.join(prefix, rel)`. |
| Builder.BasePermissionsDistinct | support/android/builder.py:394 | The four built-in permissions are distinct. |
| Builder.PermissionMapping | support/android/builder.py:402-421 | A mapped module method needs a non-empty list of distinct permissions, none of them built in. |
| Builder.ActivityMapping | support/android/builder.py:441-453 | A mapped module method needs the video, map or Facebook activity. The map activity belongs exactly to `Map.createView`. |
| Builder.MappedActivitiesAsWritten | support/android/builder.py:474-487 | As written, an activity is contributed exactly when some module method maps to it, whatever the device. |
| Builder.MappedActivities | support/android/builder.py:455-481 | With the Google-API skip in effect, an activity is contributed exactly when a module method maps to it and does not need Google APIs the device lacks. |
| Builder.AsWrittenIgnoresDevice | support/android/builder.py:474-487 | The as-written activities are those of the corrected aggregation on a device with Google APIs. |
| Builder.AddAbsent | support/android/builder.py:467-471 | The result extends the list. It holds exactly the old and the new names. Each appended name was absent before it, and a duplicate-free list stays duplicate-free. |
| Builder.AddAbsentFirstSeenOrder | support/android/builder.py:463-471 | Appended names appear in the order of their first occurrence. |
| Builder.AppendAbsent | support/android/builder.py:467-471 | The inner loop appends exactly the permissions not yet listed, in order. |
| Builder.AddPermissionsOf | support/android/builder.py:464-473 | One module method adds its mapped permissions not yet listed. An unmapped method adds nothing. |
| Builder.AddActivityOf | support/android/builder.py:474-487 | As written, one module method adds its mapped activity unless it is already listed, whatever the device. |
| Builder.AddActivityOfChecked | support/android/builder.py:474-487 | With the skip in effect, one module method adds its mapped activity unless it is already listed or needs Google APIs the device lacks. |
| Builder.CollectManifestEntries | support/android/builder.py:463-487 | The loop yields the built-in permissions followed by every mapped permission not yet listed. As written, it also yields every mapped activity not yet listed, whatever the device. |
| Builder.CollectActivitiesChecked | support/android/builder.py:463-487 | With the skip in effect, the loop yields every mapped activity not yet listed that the device can run. |
| Builder.ManifestEntriesProperties | support/android/builder.py:394-487 | The permission list starts with the four built-in permissions, has no duplicates, and holds exactly the built-in and mapped permissions. The activity list has no duplicates and holds the map activity exactly when `Map.createView` is used. |
| Builder.GoogleApiSkipIneffective | support/android/builder.py:474-487 | As written, a build for a device without Google APIs still declares the map activity. The corrected aggregation does not. |
| Builder.NoMapActivityWithoutGoogleApis | support/android/builder.py:455-458 | With the skip in effect, no module method contributes the map activity to a device without Google APIs. |
| Builder.BuildPermissionsXml | support/android/builder.py:490-492 | The loop emits one `<uses-permission>` element per permission, in list order. |
| Builder.PermissionsXmlRoundTrip | support/android/builder.py:490-492 | Reading the permission names back from the emitted XML gives the permission list. |
| Builder.SubstituteManifest | support/android/builder.py:556-570 | The manifest is the template with the activities placeholder replaced by the activities joined by blank lines, then the permissions placeholder replaced by the XML. The SDK rewrite at line 570 replaces the declaration by itself and changes nothing. |
| Strings.ReplaceAllSelf | support/android/builder.py:570 | Replacing a text by itself changes nothing. |
| Builder.ManifestPlacesEntries | support/android/builder.py:556-569 | In a template `a`, activities placeholder, `b`, permissions placeholder, `c`, where neither placeholder recurs, the joined activities and the permissions XML take the placeholders' places and the rest is unchanged. |
| Builder.GenerateManifestContents | support/android/builder.py:391-570 | The generated manifest is the substitution of the de-duplicated activities (as written, whatever the device) and of the XML of the de-duplicated permissions. |
| Context.NormalizeBaseUrl | android/titanium/src/org/appcelerator/titanium/TiContext.java:98-105 | The base URL always ends in `/`. It is `app://` for null, and otherwise the given URL with at most one character added. |
| Context.NormalizeBaseUrlAddsOneSlash | android/titanium/src/org/appcelerator/titanium/TiContext.java:98-105 | A URL ending in `/` is kept; any other gets exactly one `/`. |
| Context.TiContext.constructor | android/titanium/src/org/appcelerator/titanium/TiContext.java:91-114 | A new context has the normalised base URL, no evaluator, no current URL and no listeners. |
| Context.TiContext.SetJSContext | android/titanium/src/org/appcelerator/titanium/TiContext.java:124-129 | Only the evaluator changes. |
| Context.LeadingDotDots | android/titanium/src/org/appcelerator/titanium/TiContext.java:188-194 | The count is the length of the maximal prefix of `..` segments. |
| Context.ResolveSegments | android/titanium/src/org/appcelerator/titanium/TiContext.java:188-208 | The counting loop and the two StringBuilder loops produce the resolved directory: one base segment dropped per leading `..`, then the rest of the path, ending in `/`. |
| Context.ResolvedDirectory | android/titanium/src/org/appcelerator/titanium/TiContext.java:188-208 | The resolved directory always ends in `/`. |
| Context.AppendSegments | android/titanium/src/org/appcelerator/titanium/TiContext.java:195-204 | The StringBuilder loop produces the `/`-join of all parts appended so far. |
| Context.DotDotCancelsSegment | android/titanium/src/org/appcelerator/titanium/TiContext.java:188-208 | A leading `..` cancels the last base segment. |
| Context.ResolvedDirectoryNoDotDots | android/titanium/src/org/appcelerator/titanium/TiContext.java:188-208 | Without leading `..` the whole base is kept and the path's segments follow. |
| Context.ResolvedDirectoryAboveBase | android/titanium/src/org/appcelerator/titanium/TiContext.java:188-208 | `..` segments that climb above the base keep nothing of it. |
| Context.SplitFileName | android/titanium/src/org/appcelerator/titanium/TiContext.java:163-169 | A path splits at its last `/` (unless that is the first character) into a directory and a file name without `/`, and they join back to the path. |
| Context.AbsoluteUrlOf | android/titanium/src/org/appcelerator/titanium/TiContext.java:157-217 | The URL is returned unchanged when it does not parse, has a scheme, or its directory does not climb with `..`. |
| Context.TiContext.AbsoluteUrl | android/titanium/src/org/appcelerator/titanium/TiContext.java:157-217 | The method computes the absolute URL of the specification, the `..` loop included. |
| Context.ResolveUrlOf | android/titanium/src/org/appcelerator/titanium/TiContext.java:224-257 | A path is passed through unchanged exactly when its scheme is not local. A `file:` result is returned as it is, and anything else goes to the file factory. |
| Context.ResolveLocal | android/titanium/src/org/appcelerator/titanium/TiContext.java:239-256 | A local path with its own scheme is kept. Without one, a relative path goes under `relativeTo` and a rooted one under the scheme. The result is a `file:` URL exactly when it starts with `file:`; anything else goes to the file factory. |
| Context.ResolveRelativePath | android/titanium/src/org/appcelerator/titanium/TiContext.java:240-242 | A local relative path without a scheme resolves to `relativeTo` followed by the path. |
| Context.ResolveRootedPath | android/titanium/src/org/appcelerator/titanium/TiContext.java:231-244 | A local rooted path without a scheme is put under the scheme, `app:` by default. |
| Context.ResolveSchemedPath | android/titanium/src/org/appcelerator/titanium/TiContext.java:246-248 | A local path with its own scheme is kept. |
| Context.TiContext.ResolveUrl | android/titanium/src/org/appcelerator/titanium/TiContext.java:224-257 | The method computes the resolution of the specification. |
| Context.TiContext.ResolveUrlFromBase | android/titanium/src/org/appcelerator/titanium/TiContext.java:219-222 | The two-argument form resolves relative to the context's base URL. |
| Context.TiContext.EvalFile | android/titanium/src/org/appcelerator/titanium/TiContext.java:269-295 | The file always becomes the current URL. Without an evaluator nothing is evaluated (null). When the evaluator throws IOException, the exception propagates and the messenger is not notified. Otherwise the file is evaluated, and the messenger, if any, gets the message id. |
| Context.TiContext.EvalJS | android/titanium/src/org/appcelerator/titanium/TiContext.java:301-308 | Without an evaluator the call fails on the null reference (the log does not stop it). Otherwise the source goes to the evaluator. |
| Context.TiContext.AddOnLifecycleEventListener | android/titanium/src/org/appcelerator/titanium/TiContext.java:315-317 | The listener is appended to the registry; nothing else changes. |
| Context.RemoveFirst | android/titanium/src/org/appcelerator/titanium/TiContext.java:319-332 | Removal takes away one occurrence of the listener (multiset difference) and leaves a list without it unchanged. |
| Context.RemoveAtFirst | android/titanium/src/org/appcelerator/titanium/TiContext.java:322-328 | Exactly the first entry for the listener is deleted, and the others keep their order. |
| Context.AddThenRemove | android/titanium/src/org/appcelerator/titanium/TiContext.java:315-332 | Adding a new listener and removing it restores the registry. |
| Context.TiContext.RemoveOnLifecycleEventListener | android/titanium/src/org/appcelerator/titanium/TiContext.java:319-332 | The search loop removes the first entry for the listener; nothing else changes. |
| Context.TiContext.DispatchLifecycleEvent | android/titanium/src/org/appcelerator/titanium/TiContext.java:394-478 | The loop makes one delivery per registered entry, in order. A live listener receives the event whether or not earlier ones threw. A cleared reference is skipped. No listener changes the registry during the dispatch. |
| Context.LiveEntries | android/titanium/src/org/appcelerator/titanium/TiContext.java:397-407 | The live entries are exactly the registered entries whose listener is reachable. |
| Context.DispatchCallsLiveInOrder | android/titanium/src/org/appcelerator/titanium/TiContext.java:394-478 | A dispatch calls exactly the live listeners, in registration order. |
| Context.TiContext.SetOnMenuEventListener | android/titanium/src/org/appcelerator/titanium/TiContext.java:334-348 | The listener is stored. An activity that is still there is pointed at this context, or at nothing when the listener is cleared. |
| Context.TiContext.DispatchHasMenu | android/titanium/src/org/appcelerator/titanium/TiContext.java:350-357 | The answer is false without a listener, otherwise the listener's answer. |
| Context.TiContext.DispatchPrepareMenu | android/titanium/src/org/appcelerator/titanium/TiContext.java:359-366 | The answer is false without a listener, otherwise the listener's answer for the menu. |
| Context.TiContext.DispatchMenuItemSelected | android/titanium/src/org/appcelerator/titanium/TiContext.java:368-375 | The answer is false without a listener, otherwise the listener's answer for the item. |
| Context.TiContext.SetOnConfigurationChangedListener | android/titanium/src/org/appcelerator/titanium/TiContext.java:377-383 | The (weakly held) configuration listener is set or cleared; nothing else changes. |
| Context.TiContext.DispatchOnConfigurationChanged | android/titanium/src/org/appcelerator/titanium/TiContext.java:384-392 | The listener is notified if and only if one is set and still reachable. |
| Context.TiContext.Release | android/titanium/src/org/appcelerator/titanium/TiContext.java:615-628 | A KrollBridge evaluator is dropped and any other evaluator is kept. The listener registry and the menu listener are cleared. |
| TableView.ClassNameForRow | android/modules/ui/src/ti/modules/titanium/ui/widget/tableview/TableViewModel.java:75-81 | A row's class is its own `className`, else the default class. A row is never given the symbolic header class. |
| TableView.ItemForHeader | android/modules/ui/src/ti/modules/titanium/ui/widget/tableview/TableViewModel.java:114-125 | A header item has the header class, the given index and the section. It carries the header text when there is one, else the footer text. |
| TableView.TableViewModel.constructor | android/modules/ui/src/ti/modules/titanium/ui/widget/tableview/TableViewModel.java:57-63 | A new model is dirty, with a fresh empty view list. |
| TableView.TableViewModel.Release | android/modules/ui/src/ti/modules/titanium/ui/widget/tableview/TableViewModel.java:65-73 | The view list is emptied in place, so a caller still holding it sees it empty. Then the view and the proxy are dropped. |
| TableView.ReleaseEmptiesHeldView | android/modules/ui/src/ti/modules/titanium/ui/widget/tableview/TableViewModel.java:65-73 | A view handed out by a rebuild holds the flat table, and its holder finds it empty after release. |
| TableView.TableViewModel.GetRowCount | android/modules/ui/src/ti/modules/titanium/ui/widget/tableview/TableViewModel.java:127-132 | The count is 0 once released, otherwise the number of items. |
| TableView.TableViewModel.SetDirty | android/modules/ui/src/ti/modules/titanium/ui/widget/tableview/TableViewModel.java:211-213 | Only the dirty flag changes. |
| TableView.TableViewModel.GetViewModel | android/modules/ui/src/ti/modules/titanium/ui/widget/tableview/TableViewModel.java:139-181 | A clean model returns its view unchanged, which is null after release. A dirty model starts a fresh empty list. Without a proxy (after release) it then fails on the null reference. With sections it fills the list with their flattening and becomes clean. Without sections the list stays empty and the model dirty. |
| TableView.FlattenSections | android/modules/ui/src/ti/modules/titanium/ui/widget/tableview/TableViewModel.java:151-176 | The section-by-section loop builds exactly the flat view of the sections. |
| TableView.BuildSectionItems | android/modules/ui/src/ti/modules/titanium/ui/widget/tableview/TableViewModel.java:152-175 | One section's pass adds its header if titled, its rows and its footer if titled. The running index advances by its row count. |
| TableView.BuildRowItems | android/modules/ui/src/ti/modules/titanium/ui/widget/tableview/TableViewModel.java:156-167 | The inner loop numbers each row from the running index and records its section and its position in the section. |
| TableView.FlattenIndexCountsRows | android/modules/ui/src/ti/modules/titanium/ui/widget/tableview/TableViewModel.java:144-176 | Every item's index is the number of rows before it. Rows are therefore numbered 0, 1, 2, ... across the table, and the view holds as many rows as the sections. |
| TableView.FlattenLength | android/modules/ui/src/ti/modules/titanium/ui/widget/tableview/TableViewModel.java:151-176 | The view has one item per row, per header title and per footer title. |
| TableView.FlattenItemsWellPlaced | android/modules/ui/src/ti/modules/titanium/ui/widget/tableview/TableViewModel.java:151-176 | A row item names its section and its position in it (restarting at 0 per section) and has the row's class. Any other item is a header or footer with exactly one text. |
| TableView.TableViewModel.GetViewIndex | android/modules/ui/src/ti/modules/titanium/ui/widget/tableview/TableViewModel.java:183-197 | The result is the first position whose item carries the index. It is -1 if and only if the view is released, the index exceeds the item count, or no item carries it. |
| TableView.RowNumberPresent | android/modules/ui/src/ti/modules/titanium/ui/widget/tableview/TableViewModel.java:183-197 | Every row number of a flattened table is carried by some item, so the view-index search finds it. |
| TabGroup.Tab.constructor | android/modules/ui/src/ti/modules/titanium/ui/TabGroupProxy.java:116-133 | A new tab has the given properties, whether it has a window, and no group. |
| TabGroup.FirstWithoutWindow | android/modules/ui/src/ti/modules/titanium/ui/TabGroupProxy.java:160-161 | The position of the first tab without a window: every tab before it has one, and it is the length only when all do. |
| TabGroup.DerivedTag | android/modules/ui/src/ti/modules/titanium/ui/TabGroupProxy.java:118-133 | The tag is the tab's own tag, else its title, else its icon, else its `toString()`. |
| TabGroup.TagsOf | android/modules/ui/src/ti/modules/titanium/ui/TabGroupProxy.java:266-267 | The tags of the tabs, position by position. |
| TabGroup.IndexForIdIn | android/modules/ui/src/ti/modules/titanium/ui/TabGroupProxy.java:262-275 | A success is the first position tagged `id`, or -1 when no tab has that tag. It fails on the null reference only when an untagged tab comes first. |
| TabGroup.IndexForIdOfAdded | android/modules/ui/src/ti/modules/titanium/ui/TabGroupProxy.java:116-141 | A tab added with a tag no earlier tab has is found at the end. |
| TabGroup.TabGroupProxy.constructor | android/modules/ui/src/ti/modules/titanium/ui/TabGroupProxy.java:50-54 | A new group has no tab list, is not open and has no view. |
| TabGroup.TabGroupProxy.GetTabs | android/modules/ui/src/ti/modules/titanium/ui/TabGroupProxy.java:89-97 | The result is the tab list, or null before the first add. |
| TabGroup.TabGroupProxy.AddTab | android/modules/ui/src/ti/modules/titanium/ui/TabGroupProxy.java:99-114 | The list is created when missing and the tab appended, and the tab's tag becomes the derived tag. When the view exists the add fails with the `getView` IllegalStateException and the tab keeps its old group. |
| TabGroup.TabGroupProxy.HandleAddTab | android/modules/ui/src/ti/modules/titanium/ui/TabGroupProxy.java:116-141 | A missing tag is written back as the derived tag and the tab is appended. When the view exists, `getView` throws IllegalStateException and the tab is not attached. |
| TabGroup.TabGroupProxy.AddTabAttaching | android/modules/ui/src/ti/modules/titanium/ui/TabGroupProxy.java:99-114 | With the view taken from `peekView`, the add appends the tab with its derived tag and attaches it to the group when the view exists. |
| TabGroup.TabGroupProxy.HandleAddTabAttaching | android/modules/ui/src/ti/modules/titanium/ui/TabGroupProxy.java:116-141 | With the view taken from `peekView`, the tab is appended with its derived tag and attached to the group when the view exists. |
| TabGroup.TabGroupProxy.RemoveTab | android/modules/ui/src/ti/modules/titanium/ui/TabGroupProxy.java:185-188 | Removing a tab leaves the list unchanged. |
| TabGroup.SearchTags | android/modules/ui/src/ti/modules/titanium/ui/TabGroupProxy.java:265-274 | The loop over the tags returns the first match or -1. It fails on the null reference at an untagged tab that comes first, matching the search of the specification. |
| TabGroup.TabGroupProxy.IndexForId | android/modules/ui/src/ti/modules/titanium/ui/TabGroupProxy.java:262-275 | Before any add the search fails on the null list. Otherwise the loop computes the search of the specification. |
| TabGroup.TabGroupProxy.BuildFocusEvent | android/modules/ui/src/ti/modules/titanium/ui/TabGroupProxy.java:237-260 | The event carries both indices and the previous tab, or the "no tab" stand-in for -1. It carries the new tab when found. A failing search fails the event. |
| TabGroup.TabGroupProxy.HandlePostOpenAsWritten | android/modules/ui/src/ti/modules/titanium/ui/TabGroupProxy.java:159-163 | When every tab has a window, each tab is attached and the group is open with its view. Otherwise the first tab without a window fails with a NullPointerException: the tabs up to it are attached, the later ones keep their group, and the open flag keeps its value. |
| TabGroup.TabGroupProxy.HandlePostOpen | android/modules/ui/src/ti/modules/titanium/ui/TabGroupProxy.java:210-223 | With the window tested before it is used, every tab is attached to the group, with or without a window, and the group is open. |
| TabGroup.TabGroupProxy.ReleaseViewsAsWritten | android/modules/ui/src/ti/modules/titanium/ui/TabGroupProxy.java:302-314 | Every tab is detached. Without a tab list the clearing fails on the null reference. |
| TabGroup.TabGroupProxy.ReleaseViews | android/modules/ui/src/ti/modules/titanium/ui/TabGroupProxy.java:302-314 | Every tab is detached and the list emptied. A group without a list is left as it is. |
| TabGroup.TabGroupProxy.HandleCloseAsWritten | android/modules/ui/src/ti/modules/titanium/ui/TabGroupProxy.java:226-235 | With tabs the group closes: no window id, no view, not open, list empty. Without a list it fails and keeps its open state. |
| TabGroup.TabGroupProxy.HandleClose | android/modules/ui/src/ti/modules/titanium/ui/TabGroupProxy.java:226-235 | Closing always leaves the group closed, without window id or view, and its tabs detached. |
| TabGroup.DetachAll | android/modules/ui/src/ti/modules/titanium/ui/TabGroupProxy.java:307-310 | Every tab of the list loses its group and keeps its properties. |
| TabGroup.CloseWithoutTabsLeavesOpen | android/modules/ui/src/ti/modules/titanium/ui/TabGroupProxy.java:302-314 | As written, a group opened with no tab and then closed fails and stays open. |
| TabGroup.CloseWithoutTabsCloses | android/modules/ui/src/ti/modules/titanium/ui/TabGroupProxy.java:226-235 | With the corrected release the same group closes. |
| TabGroup.AddAfterOpenFails | android/modules/ui/src/ti/modules/titanium/ui/TabGroupProxy.java:135-139 | As written, a tab added after the group opened is listed but not attached, and the add fails in `getView`. |
| TabGroup.PostOpenWindowlessFails | android/modules/ui/src/ti/modules/titanium/ui/TabGroupProxy.java:159-163 | As written, opening a group whose tab has no window fails with a NullPointerException; the tab is attached and the group is not open. |
| TabGroup.PostOpenWindowlessOpens | android/modules/ui/src/ti/modules/titanium/ui/TabGroupProxy.java:210-223 | With the window tested first, the same group opens with its tab attached. |
| TabGroup.AddAfterOpenAttaches | android/modules/ui/src/ti/modules/titanium/ui/TabGroupProxy.java:116-141 | With the view taken from `peekView`, the same tab is listed and attached. |
| Activity.IntentFlagsOf | android/modules/android/src/ti/modules/titanium/android/TiBaseActivity.java:97-123 | Fullscreen, modal and vertical are true exactly when their extra is present and true. The nav bar is shown unless `navBarHidden` is present and true. A message id is read exactly when a messenger is passed. |
| Activity.ReadIntentFlags | android/modules/android/src/ti/modules/titanium/android/TiBaseActivity.java:97-123 | Reading the flags extra by extra from the defaults gives the flags of the specification. |
| Activity.WindowSetupFor | android/modules/android/src/ti/modules/titanium/android/TiBaseActivity.java:127-145 | A modal activity sets nothing up. Otherwise fullscreen follows the flag, and the window has no title bar if and only if the nav bar is hidden. |
| Activity.TiBaseActivity.constructor | android/modules/android/src/ti/modules/titanium/android/TiBaseActivity.java:66-79 | A new activity has no id map yet. |
| Activity.TiBaseActivity.OnCreate | android/modules/android/src/ti/modules/titanium/android/TiBaseActivity.java:66-148 | Without a source and without an intent data string, creation fails with "activitySource required.". Otherwise the source is kept or adopted from the intent, and the id map starts empty. The flags are read from the intent, the window is set up from them, and the final layout is not vertical. |
| Activity.TiBaseActivity.OnCreateOptionsMenu | android/modules/android/src/ti/modules/titanium/android/TiBaseActivity.java:273-277 | The answer is true exactly when the activity proxy has a `menu` property. |
| Activity.TitledItems | android/modules/android/src/ti/modules/titanium/android/TiBaseActivity.java:300-302 | As a set, the titled items are exactly the menu's items that have a title; there are no more of them than items. Their order is stated by `TitledItemsSnoc`. |
| Activity.TitledItemsSnoc | android/modules/android/src/ti/modules/titanium/android/TiBaseActivity.java:300-305 | An empty menu has no titled items. Appending an item appends it to the titled items when it has a title and leaves them unchanged otherwise, so the titled items keep the menu order. |
| Activity.UntitledItemsIgnored | android/modules/android/src/ti/modules/titanium/android/TiBaseActivity.java:300-305 | An item without a title does not change the id map. |
| Activity.TitledItemGetsNextId | android/modules/android/src/ti/modules/titanium/android/TiBaseActivity.java:300-305 | A titled item gets the next id. |
| Activity.BuildMenu | android/modules/android/src/ti/modules/titanium/android/TiBaseActivity.java:296-317 | The loop builds exactly the id map and the native entries of the specification. |
| Activity.TiBaseActivity.OnPrepareOptionsMenu | android/modules/android/src/ti/modules/titanium/android/TiBaseActivity.java:291-321 | The answer is true exactly when the activity has a non-null menu. In that case the native menu holds one entry per titled item with ids 0, 1, 2, ..., and the id map holds exactly those ids. Otherwise the menu is cleared and the map kept. |
| Activity.TiBaseActivity.OnOptionsItemSelected | android/modules/android/src/ti/modules/titanium/android/TiBaseActivity.java:280-288 | A mapped id fires `click` on its item and is handled. An unmapped id is not handled. Before creation the lookup fails on the null map. |

## Left out

- I/O: the build script's file copying, `adb`/`aapt` calls, reading and writing the manifest file, and the icon and resource handling. The properties file arrives as its list of lines, and the rendered template as a string.
- The regular-expression match of the SDK version (`builder.py:560-566`): its result is never used.
- Concurrency: the UI-thread hand-off of `addTab`, the `synchronized` blocks, and `onCreate`'s background thread and latch around `evalFile`. Each operation is modelled as one atomic step.
- Android UI: window flags are recorded as a `WindowSetup` value. Native menus are recorded as the list of entries added. Views, layouts, drawables and menu icons are not modelled.
- Library code whose source is not part of this model (`java.net.URI`, `android.net.Uri`, `TiFileFactory`, `TiFileHelper2.joinSegments`, `TiConvert`) is an input. The file factory's native-path conversion after `resolveUrl`'s `file:` test is therefore not modelled.
- TableView.ClassNameForRow: the `TableViewProxy` class-name constants are not part of this model, so the default and header classes are symbolic. A row whose own `className` equals the header constant is not identified with the header class.
- Builder.Basename: paths are POSIX paths. On Windows, `os.path.basename` also splits at `\` and after a drive letter, which the model does not do.
- Builder.PathJoin: paths are POSIX paths. On Windows, `os.path.join` also treats `\` and drive letters as roots and joins with `\`, which the model does not do.
- Context.TiContext.EvalFile: whether the evaluator fails to read the file is an input. The file system and the evaluator's result value are not modelled. A `RemoteException` from the messenger is caught and only logged, so it is not modelled.
- `TableViewModel.itemForObject`, `getSection` and `getRowHeight`, and `TabGroupProxy.handleOpen`, `fillIntent` and `handleToImage`, are outside the modelled core.
- `TiContext.getKrollBridge`, `createTiContext`, `doRhinoDialog` and the Rhino error reporters are outside the modelled core.
- TabGroup.TabGroupProxy.HandleAddTabAttaching: of `addTabToGroup` only the tab's link back to its group and whether the tab has a window are modelled. The window proxy's own state, the indicator and the intent of the tab spec are Android UI.
- TabGroup.TabGroupProxy.AddTab: the add runs on the calling thread. Off the UI thread, the `getView` exception is raised in the UI handler rather than in the caller. The handler then skips `result.setResult(null)` (`TabGroupProxy.java:67`), so the caller stays blocked in `result.getResult()` (line 113).
- Context.TiContext.DispatchLifecycleEvent: listeners are assumed not to add or remove lifecycle listeners while a dispatch runs. The registry is a synchronized list and its lock is reentrant, so such a change made from a listener on the dispatching thread goes through (`TiContext.java:315-331`). The list's iterator would then throw ConcurrentModificationException in the loop header, outside the per-listener `try`, and the remaining listeners would not get the event (or, when a removal leaves the cursor at the end, the last entry would be skipped). That path is not modelled, so `DispatchCallsLiveInOrder` holds only for dispatches during which no listener changes the registry.
- TabGroup.TabGroupProxy.HandleClose: the `finish()` call on the activity and `super.releaseViews()` are not modelled.
- Activity.TiBaseActivity.OnCreate: only the source check, id map, flags, window and final layout are modelled. The creation of the activity, intent and window proxies, the bindings into the JavaScript bridge, the `create` event and the opening of the window involve other classes.
- Activity.IntentFlagsOf: an extra of the wrong type is not modelled; extras are typed maps.
- Activity.TiBaseActivity.OnPrepareOptionsMenu: a `menu` property that is not a menu proxy (a failing cast) is not modelled.
- `TiDatabaseProxy` and `TiUIScrollableView` are not part of this model.

## Findings

| source | as written | input that shows it | evidently intended | confidence | as-written member | corrected member |
|---|---|---|---|---|---|---|
| android/modules/ui/src/ti/modules/titanium/ui/TabGroupProxy.java:302-314 | `tabs.clear()` sits outside the `tabs != null` check, so `releaseViews` throws when no tab was ever added. `handleClose` (lines 226-235) then stops before `opened = false`. | A tab group opened with no tab and then closed | Clear the list only when it exists, so the group always closes | not executed | TabGroup.CloseWithoutTabsLeavesOpen | TabGroup.CloseWithoutTabsCloses |
| android/modules/ui/src/ti/modules/titanium/ui/TabGroupProxy.java:135-139 | After appending the tab, `handleAddTab` obtains the view with `getView`, which the class overrides (lines 55-58) to throw IllegalStateException. The tab is listed but never passed to `addTabToGroup`. | A tab added to a tab group after it opened | Take the existing view (`peekView()`) and attach the tab to it | not executed | TabGroup.AddAfterOpenFails | TabGroup.AddAfterOpenAttaches |
| support/android/builder.py:474-487 | The Google-API check reads `self.google_apis_supported`, which is assigned only after the manifest is generated, and names the undefined `my_avd`. Either error is swallowed by the bare `except`, so the activity is appended anyway. | Module methods `["Map.createView"]` on a device without Google APIs | Skip the map activity when the device lacks Google APIs | not executed | Builder.GoogleApiSkipIneffective | Builder.NoMapActivityWithoutGoogleApis |
| android/modules/ui/src/ti/modules/titanium/ui/TabGroupProxy.java:159-163 | `addTabToGroup` calls `vp.setTabGroupProxy(this)` on the tab's window before the `vp != null` test, so `handlePostOpen` (lines 210-223) throws for a tab without a window and never sets `opened = true`. | A tab group holding a tab with no `window` property, then opened | Test the window before using it, so that the tab is left out of the native group and the group opens | not executed | TabGroup.PostOpenWindowlessFails | TabGroup.PostOpenWindowlessOpens |
