# LivelinkTransfer views: a Dafny model

LivelinkTransfer is a desktop tool for browsing the files on iOS devices and
copying them to the computer. Its two main panels hold the only logic with
statable properties:

- The **file panel** (`src/views/file_view.py`) holds the device's file catalog
  and the view of it that the table shows. It filters the view by a
  case-insensitive name match and sorts it by name, size or date. It maps
  selected table rows back to files and asks the controller to download them.
- The **device panel** (`src/views/device_panel.py`) lists the discovered USB and
  Wi-Fi devices. When the list is refreshed, the device that was current stays
  current.

The model leaves the Qt widgets out and keeps their state and logic. `FileView`
and `DevicePanel` are classes whose methods update fields as the Python methods
do. The list logic these methods rely on is written as functions with proved
properties:

- `Catalog`: the name filter and the three sort orders;
- `Lists`: order-preserving filtering;
- `Sorting`: a stable sort;
- `Text`: ASCII lower-casing, substring search and string order.

The controller is not part of the model. The panel records each call it makes
on the controller in a trace, `FileView.calls`, and the class invariant states
the download protocol over that trace.

Modules, one per file:

| file | module | contents |
|---|---|---|
| wrappers.dfy | `Wrappers` | `Option` |
| text.dfy | `Text` | `Lower`, `Contains`, `LexLe` (Python's `str.lower`, `in`, `<=` on strings) |
| models.dfy | `Models` | `File`, `Device` |
| lists.dfy | `Lists` | `Keep`, the list comprehension with a condition |
| sorting.dfy | `Sorting` | `Sort`, a stable insertion sort over any total preorder |
| catalog.dfy | `Catalog` | the filter and the three sort orders of the file panel |
| file_view.dfy | `FileViews` | class `FileView`, the controller call trace |
| device_panel.dfy | `DevicePanels` | class `DevicePanel`, list items, tooltips |

## Model

| member | source | states |
|---|---|---|
| Text.LowerChar | src/views/file_view.py:194-195 | each upper-case ASCII letter becomes its lower-case letter, and every other character is kept |
| Text.LowerCharFoldsCase | src/views/file_view.py:194-195 | two characters fold to the same one exactly when they differ at most in ASCII case |
| Text.LowerFoldsCase | src/views/file_view.py:194-195 | two strings lower to the same string exactly when they differ at most in ASCII case, so the filter and the name sort ignore case |
| Text.Lower | src/views/file_view.py:194-195 | ASCII lower-casing keeps the length of the string |
| Text.LowerAt | src/views/file_view.py:194-195 | each character of the lowercased string is the lowercased character at that position |
| Text.LowerIdempotent | src/views/file_view.py:194-195 | lower-casing twice is lower-casing once |
| Text.StartsWithIsPrefix | src/views/file_view.py:195 | the recursive prefix test is exactly sequence prefix |
| Text.Contains | src/views/file_view.py:195 | Python's `sub in s`: a prefix is contained, and a contained string is no longer than `s` |
| Text.ContainsIffOccurs | src/views/file_view.py:195 | `needle in name` holds if and only if the needle occurs at some position of the name |
| Text.ContainsPiece | src/views/device_panel.py:106-109 | a string contains each piece it was concatenated from |
| Text.LexLe | src/views/file_view.py:202 | Python's `<=` on strings: a prefix comes first, and otherwise the first characters are in order |
| Text.LexLeTotal | src/views/file_view.py:202 | any two strings are comparable by Python's string order |
| Text.LexLeTrans | src/views/file_view.py:202 | Python's string order is transitive |
| Text.LexLeAntisym | src/views/file_view.py:202 | strings that are each `<=` the other are equal |
| Lists.Keep | src/views/file_view.py:195 | a comprehension with a condition is no longer than its source, and all it keeps satisfies the condition |
| Lists.KeepSubMultiset | src/views/file_view.py:195 | the comprehension adds no element and no copies of one |
| Lists.KeepPicksExactly | src/views/file_view.py:195 | the comprehension takes exactly the satisfying positions, in increasing order |
| Lists.KeepAppend | src/views/file_view.py:195 | filtering a concatenation concatenates the filtered parts |
| Lists.KeepAll | src/views/file_view.py:191-192 | when every element satisfies the condition, the comprehension is the whole list |
| Sorting.Insert | src/views/file_view.py:202-206 | inserting adds exactly one element |
| Sorting.Sort | src/views/file_view.py:202-206 | sorting keeps the length |
| Sorting.InsertPermutes | src/views/file_view.py:202-206 | inserting adds `x` to the multiset and nothing else |
| Sorting.SortPermutes | src/views/file_view.py:202-206 | the sort is a permutation |
| Sorting.InsertSorted | src/views/file_view.py:202-206 | inserting into a sorted list keeps it sorted under a total preorder |
| Sorting.SortSorted | src/views/file_view.py:202-206 | the result is sorted under a total preorder |
| Sorting.SortKeep | src/views/file_view.py:202-206 | a group of mutually tied elements keeps its order |
| Sorting.SortStable | src/views/file_view.py:202-206 | stability: the elements tying with any `y` appear in their original order |
| Sorting.SortedIsFixpoint | src/views/file_view.py:202-206 | sorting an already sorted list leaves it unchanged |
| Sorting.SortIdempotent | src/views/file_view.py:202-206 | sorting twice is sorting once |
| Sorting.SortUnique | src/views/file_view.py:202-206 | any sorted permutation with the original order of ties is the sort's result |
| Catalog.NameMatches | src/views/file_view.py:194-195 | the filter condition holds exactly when the lowercased text occurs at some position of the lowercased name |
| Catalog.Matching | src/views/file_view.py:193-195 | the filtered view is no longer than the catalog, and every file in it has a lowercased name containing the needle |
| Catalog.MatchingPicksExactly | src/views/file_view.py:193-195 | the view is the matching catalog files in catalog order: a position is taken if and only if its file matches |
| Catalog.MatchingSubMultiset | src/views/file_view.py:195 | the view holds no file the catalog lacks |
| Catalog.MatchingEmptyNeedle | src/views/file_view.py:191-192 | an empty needle keeps the whole catalog in order |
| Catalog.ParseCriterion | src/views/file_view.py:201-206 | "name", "size" and "date" pick the three orders; any other string picks none |
| Catalog.KeyLe | src/views/file_view.py:202-206 | the three sort keys: files with equal lowercase name, size or date may stand in either order; by name, the first lowercase letters are in order |
| Catalog.SortBy | src/views/file_view.py:201-206 | sorting keeps the length |
| Catalog.KeyOrderIsPreorder | src/views/file_view.py:201-206 | each of the three orders is total and transitive |
| Catalog.TieMeansSameKey | src/views/file_view.py:201-206 | two files tie exactly when they have the same lowercase name, size or date |
| Catalog.SortByOrders | src/views/file_view.py:201-206 | the sort is a permutation, ordered by ascending lowercase names, ascending sizes or descending dates |
| Catalog.SortByStable | src/views/file_view.py:201-206 | files with equal keys keep their relative order, also with `reverse=True` |
| Catalog.SortByIdempotent | src/views/file_view.py:199-208 | sorting twice by one criterion is sorting once |
| Catalog.SortByUnique | src/views/file_view.py:201-206 | the stable sort is the only ordered permutation that keeps the order of ties |
| FileViews.DispatchCalls | src/views/file_view.py:228-238 | the default folder is read first; the folder is stored and the files transferred exactly when the dialog was not cancelled, and the transfer comes last, right after the store |
| FileViews.StoredDownloadPath | src/views/file_view.py:235-237 | a stored folder was written by some call in the trace, and none is stored exactly when nothing was ever written |
| FileViews.DispatchKeepsProtocol | src/views/file_view.py:221-253 | each transfer follows the writing of its folder as the default, which follows the reading of the default; only non-empty lists go to non-empty folders |
| FileViews.DispatchStoresDestination | src/views/file_view.py:233-237 | after a download the stored default folder is the chosen one; a cancelled dialog leaves it as it was |
| FileViews.SelectionBound | src/views/file_view.py:255-269 | the selection holds at most as many files as the view does, and at most one per distinct selected row |
| FileViews.FileView.constructor | src/views/file_view.py:21-26 | starts with no device, empty catalog and view, header "Files", the Download button disabled and no controller calls |
| FileViews.FileView.SetDevice | src/views/file_view.py:125-129 | records the device, sets the header to "Files from " and its name, and leaves catalog and view empty, showing the placeholder row |
| FileViews.FileView.UpdateFiles | src/views/file_view.py:131-135 | the catalog is the given list and the view a copy of it |
| FileViews.FileView.DisplayFiles | src/views/file_view.py:137-179 | the table has one row per file of the view, or one placeholder row for an empty view |
| FileViews.FileView.FilterFiles | src/views/file_view.py:189-197 | the view is rebuilt from the catalog as the files whose lowercased name contains the lowercased text; an empty text gives the catalog; the catalog is unchanged |
| FileViews.FileView.SortFiles | src/views/file_view.py:199-208 | the view becomes its stable sort by the criterion, a permutation in the stated order; an unknown criterion leaves it; the catalog is unchanged |
| FileViews.FileView.OnSelectionChanged | src/views/file_view.py:210-219 | on every change, the button is enabled and true is emitted exactly when some item is selected |
| FileViews.FileView.GetSelectedFiles | src/views/file_view.py:255-269 | returns the view's file at each distinct selected row below the view length, and nothing for other rows; bounded by the view and by the distinct rows |
| FileViews.FileView.DownloadSelected | src/views/file_view.py:221-238 | no selected file: no call; otherwise the default is read, and unless cancelled, the folder is stored, then the selected files are transferred |
| FileViews.FileView.DownloadFile | src/views/file_view.py:240-253 | the same dispatch for the one-element list of the row's file |
| FileViews.FileView.ClearFiles | src/views/file_view.py:271-276 | catalog and view are empty, the header is "Files", and one placeholder row shows |
| DevicePanels.Decimal | src/views/device_panel.py:109 | `str(port)` is a non-empty digit string with no leading zero |
| DevicePanels.DecimalRoundTrip | src/views/device_panel.py:109 | reading the numeral back gives the port |
| DevicePanels.ToolTip | src/views/device_panel.py:106-109 | first line "Model: " and the model, then "iOS: " and the version, for USB; "IP: " and the address, then "Port: " and the port, otherwise |
| DevicePanels.ItemFor | src/views/device_panel.py:95-109 | each item shows the device's name, stores the device, and has the USB icon exactly for USB devices |
| DevicePanels.ToolTipDescribes | src/views/device_panel.py:99-109 | the tooltip begins "Model: " exactly for USB devices and "IP: " otherwise, and shows model and iOS version, or address and port |
| DevicePanels.LastMatch | src/views/device_panel.py:111-115 | the row found lies in the list |
| DevicePanels.LastMatchIsLast | src/views/device_panel.py:111-115 | the row found is the last whose device has the remembered id; none is found exactly when no device has it |
| DevicePanels.ItemsForStep | src/views/device_panel.py:94-111 | listing one more device appends its item |
| DevicePanels.RefreshKeepsSelection | src/views/device_panel.py:84-115 | a still-listed device's id stays current, at its last occurrence |
| DevicePanels.DevicePanel.constructor | src/views/device_panel.py:56 | the list starts empty with no current item |
| DevicePanels.DevicePanel.CurrentId | src/views/device_panel.py:84-88 | an id is remembered exactly when an item is current, and it is the id of a listed device |
| DevicePanels.DevicePanel.SetCurrentItem | src/views/device_panel.py:115 | the given row becomes current |
| DevicePanels.DevicePanel.UpdateDevices | src/views/device_panel.py:79-115 | one item per device in input order; the current item is the last whose device has the remembered id, and none if nothing was current |
| DevicePanels.DevicePanel.OnDeviceSelected | src/views/device_panel.py:117-121 | emits the device stored in the clicked item |
| DevicePanels.DevicePanel.GetSelectedDevice | src/views/device_panel.py:123-128 | the current item's device, or nothing when no item is current |

## Left out

- `format_size` (src/views/file_view.py:181-187) divides floats and formats them, so it is not modelled.
- Qt widget construction is not modelled: styles, layouts, icon images, `setSpan`, per-row buttons, drag and drop. Cell contents beyond the row count are left out too. Icons are the two-valued `Icon`.
- The folder dialog is not modelled. The folder it returns is a parameter, and the empty string means cancelled.
- The controller is not modelled: `get_settings`, `set_settings`, `transfer_files` and `start_device_discovery` are external I/O. The first three are recorded as `ControllerCall`s. The settings store is read back from the trace, and the store's contents before the first write are unknown.
- Logging and Qt signal transport are left out. An emitted value is a method's result.
- Python's `str.lower` is modelled on ASCII letters only. Unicode case mapping is left out.
- `datetime` comparison is modelled as integer timestamps.
- The table's selection is a parameter: the rows of the selected items, in item order. Qt's own behaviour is left out: clearing the selection on recompute, and making a clicked item current.
- `FileViews.FileView.GetSelectedFiles`: Python iterates the set of rows in an unspecified order, and the model visits the rows in an arbitrary order. The contract fixes which files are returned, not their order.
- `FileViews.FileView.DownloadSelected`: the selected files are ghost outputs because their order is unspecified. The contract ties the recorded transfer to them.
- `FileViews.FileView.UpdateFiles`: `self.files = files` keeps a reference to the caller's list, while the model stores a value. Later changes the caller makes to that list are not modelled.
- The file panel's `controller` and `current_device` are only stored. `setup.py` and `models/device_manager.py` are not part of this model.
- The code raises no error for an empty selection, a cancelled dialog or an unknown sort criterion. Each of these silently does nothing, and the model does the same.
