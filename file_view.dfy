/**
 * The file panel of src/views/file_view.py without its widgets: the device's file
 * catalog, the filtered and sorted view the table shows, and the calls the panel makes
 * on its controller when files are downloaded. The table's selection is not state
 * here: the operations that read it take the selected rows as a parameter.
 */
module FileViews {
  import opened Wrappers
  import opened Text
  import opened Models
  import opened Catalog

  /** The settings key under which the last destination folder is kept. */
  const DownloadPathKey := "default_download_path"

  /** A call the panel makes on its controller. */
  datatype ControllerCall =
    | GetSettings(key: string, fallback: string)
    | SetSettings(key: string, value: string)
    | TransferFiles(files: seq<File>, destination: string)

  /**
   * The calls of one download of `files`: the stored default folder is read for the
   * folder dialog; unless the dialog was cancelled (an empty `destination`), the
   * chosen folder is stored as the new default and then the files are transferred.
   */
  function DispatchCalls(files: seq<File>, destination: string): (r: seq<ControllerCall>)
    ensures r != [] && r[0] == GetSettings(DownloadPathKey, "")
    ensures SetSettings(DownloadPathKey, destination) in r <==> destination != ""
    ensures TransferFiles(files, destination) in r <==> destination != ""
    ensures forall i :: 0 <= i < |r| && r[i].TransferFiles? ==>
      i == |r| - 1 && 0 < i && r[i - 1] == SetSettings(DownloadPathKey, destination)
  {
    [GetSettings(DownloadPathKey, "")]
    + if destination == "" then []
      else [SetSettings(DownloadPathKey, destination), TransferFiles(files, destination)]
  }

  /**
   * Every transfer in `calls` moves a non-empty list to a chosen folder, right after
   * that folder was stored as the default, which came right after the default was read.
   */
  ghost predicate DispatchProtocol(calls: seq<ControllerCall>)
  {
    forall i :: 0 <= i < |calls| && calls[i].TransferFiles? ==>
      && 2 <= i
      && calls[i].files != []
      && calls[i].destination != ""
      && calls[i - 1] == SetSettings(DownloadPathKey, calls[i].destination)
      && calls[i - 2] == GetSettings(DownloadPathKey, "")
  }

  /** A download of a non-empty list keeps the protocol. */
  lemma DispatchKeepsProtocol(calls: seq<ControllerCall>, files: seq<File>, destination: string)
    requires DispatchProtocol(calls) && files != []
    ensures DispatchProtocol(calls + DispatchCalls(files, destination))
  {
    var all := calls + DispatchCalls(files, destination);
    forall i | 0 <= i < |all| && all[i].TransferFiles?
      ensures 2 <= i && all[i].files != [] && all[i].destination != ""
      ensures all[i - 1] == SetSettings(DownloadPathKey, all[i].destination)
      ensures all[i - 2] == GetSettings(DownloadPathKey, "")
    {
      if i < |calls| {
        assert all[i] == calls[i] && all[i - 1] == calls[i - 1] && all[i - 2] == calls[i - 2];
      } else {
        assert i == |calls| + 2;
      }
    }
  }

  /** The default folder the settings hold after `calls`: the value last stored, if any. */
  function StoredDownloadPath(calls: seq<ControllerCall>): (r: Option<string>)
    ensures r.Some? ==> SetSettings(DownloadPathKey, r.value) in calls
    ensures r.None? <==> forall c :: c in calls ==> !(c.SetSettings? && c.key == DownloadPathKey)
  {
    if calls == [] then None
    else
      var last := calls[|calls| - 1];
      if last.SetSettings? && last.key == DownloadPathKey then Some(last.value)
      else StoredDownloadPath(calls[..|calls| - 1])
  }

  /**
   * After a download the stored default is the chosen folder; a cancelled dialog
   * leaves it as it was.
   */
  lemma DispatchStoresDestination(calls: seq<ControllerCall>, files: seq<File>, destination: string)
    ensures StoredDownloadPath(calls + DispatchCalls(files, destination))
         == if destination == "" then StoredDownloadPath(calls) else Some(destination)
  {
    var all := calls + DispatchCalls(files, destination);
    if destination == "" {
      assert all[..|all| - 1] == calls;
    } else {
      assert all[..|all| - 1] == calls + [GetSettings(DownloadPathKey, ""), SetSettings(DownloadPathKey, destination)];
    }
  }

  /**
   * `selected` lists the files of `view` at the distinct rows `picked`, and a row is
   * picked if and only if some selected item lies in it and it holds a file.
   */
  ghost predicate IsSelection(view: seq<File>, itemRows: seq<nat>, selected: seq<File>, picked: seq<nat>)
  {
    && |selected| == |picked|
    && (forall k :: 0 <= k < |picked| ==> picked[k] < |view| && selected[k] == view[picked[k]])
    && (forall k, l :: 0 <= k < l < |picked| ==> picked[k] != picked[l])
    && (forall r :: r in picked <==> r in itemRows && r < |view|)
  }

  /** A list of distinct values drawn from `rows` is no longer than `rows` is large. */
  lemma {:induction false} DistinctBound(picked: seq<nat>, rows: set<nat>)
    requires forall k, l :: 0 <= k < l < |picked| ==> picked[k] != picked[l]
    requires forall k :: 0 <= k < |picked| ==> picked[k] in rows
    ensures |picked| <= |rows|
  {
    if picked != [] {
      var last := picked[|picked| - 1];
      DistinctBound(picked[..|picked| - 1], rows - {last});
    }
  }

  /** The rows `0 .. n - 1`. */
  ghost function Below(n: nat): (rows: set<nat>)
    ensures forall r: nat :: r in rows <==> r < n
    ensures |rows| == n
  {
    if n == 0 then {} else Below(n - 1) + {n - 1}
  }

  /** A selection holds at most one file per selected row, and at most the whole view. */
  lemma SelectionBound(view: seq<File>, itemRows: seq<nat>, selected: seq<File>, picked: seq<nat>)
    requires IsSelection(view, itemRows, selected, picked)
    ensures |selected| <= |view|
    ensures |selected| <= |set r | r in itemRows|
  {
    var inItems := set r | r in itemRows;
    forall k | 0 <= k < |picked|
      ensures picked[k] in Below(|view|) && picked[k] in inItems
    {
      assert picked[k] in picked;
    }
    DistinctBound(picked, Below(|view|));
    DistinctBound(picked, inItems);
    assert inItems == set r | r in itemRows;
  }

  class FileView {
    /** The device whose files are shown. */
    var currentDevice: Option<Device>
    /** The panel's title. */
    var header: string
    /** The device's full file list (`self.files`). */
    var files: seq<File>
    /** The filtered and sorted view the table shows (`self.filtered_files`). */
    var filteredFiles: seq<File>
    /** The number of rows of the table. */
    var rowCount: nat
    /** Whether the Download button is enabled. */
    var downloadEnabled: bool
    /** The calls made on the controller so far, oldest first. */
    var calls: seq<ControllerCall>

    /** The view holds only catalog files, and every transfer followed the protocol. */
    ghost predicate Valid()
      reads this
    {
      multiset(filteredFiles) <= multiset(files) && DispatchProtocol(calls)
    }

    constructor ()
      ensures Valid()
      ensures currentDevice == None && header == "Files"
      ensures files == [] && filteredFiles == [] && rowCount == 0
      ensures !downloadEnabled && calls == []
    {
      currentDevice := None;
      header := "Files";
      files := [];
      filteredFiles := [];
      rowCount := 0;
      downloadEnabled := false;
      calls := [];
    }

    /** `set_device`: shows the device's name and empties the catalog. */
    method SetDevice(device: Device)
      requires Valid()
      modifies this`currentDevice, this`header, this`files, this`filteredFiles, this`rowCount
      ensures Valid()
      ensures currentDevice == Some(device) && header == "Files from " + device.name
      ensures files == [] && filteredFiles == [] && rowCount == 1
    {
      currentDevice := Some(device);
      header := "Files from " + device.name;
      UpdateFiles([]);
    }

    /** `update_files`: the catalog becomes `fs` and the view a copy of it. */
    method UpdateFiles(fs: seq<File>)
      requires Valid()
      modifies this`files, this`filteredFiles, this`rowCount
      ensures Valid()
      ensures files == fs && filteredFiles == fs
      ensures rowCount == if fs == [] then 1 else |fs|
    {
      files := fs;
      filteredFiles := fs;
      DisplayFiles();
    }

    /**
     * `display_files`: one table row per file of the view, or a single
     * "No files found" row when the view is empty.
     */
    method DisplayFiles()
      modifies this`rowCount
      ensures rowCount == if filteredFiles == [] then 1 else |filteredFiles|
    {
      rowCount := |filteredFiles|;
      if |filteredFiles| == 0 {
        rowCount := 1;
      }
    }

    /**
     * `filter_files`: rebuilds the view from the catalog, keeping the files whose
     * lowercased name contains the lowercased text, in catalog order. An empty text
     * keeps every file. Any earlier sort of the view is lost.
     */
    method FilterFiles(text: string)
      requires Valid()
      modifies this`filteredFiles, this`rowCount
      ensures Valid()
      ensures text == "" ==> filteredFiles == files
      ensures filteredFiles == Matching(files, Lower(text))
      ensures rowCount == if filteredFiles == [] then 1 else |filteredFiles|
    {
      if text == "" {
        filteredFiles := files;
        MatchingEmptyNeedle(files);
      } else {
        var needle := Lower(text);
        filteredFiles := Matching(files, needle);
        MatchingSubMultiset(files, needle);
      }
      DisplayFiles();
    }

    /**
     * `sort_files`: "name", "size" and "date" sort the view stably by lowercase
     * name ascending, size ascending and date descending; any other criterion
     * leaves it as it was. The catalog is not touched.
     */
    method SortFiles(criterion: string)
      requires Valid()
      modifies this`filteredFiles, this`rowCount
      ensures Valid()
      ensures filteredFiles == match ParseCriterion(criterion)
        case Some(key) => SortBy(key, old(filteredFiles))
        case None => old(filteredFiles)
      ensures multiset(filteredFiles) == multiset(old(filteredFiles))
      ensures criterion == "name" ==> forall i, j :: 0 <= i < j < |filteredFiles| ==>
        LexLe(Lower(filteredFiles[i].name), Lower(filteredFiles[j].name))
      ensures criterion == "size" ==> forall i, j :: 0 <= i < j < |filteredFiles| ==>
        filteredFiles[i].size <= filteredFiles[j].size
      ensures criterion == "date" ==> forall i, j :: 0 <= i < j < |filteredFiles| ==>
        filteredFiles[i].date >= filteredFiles[j].date
      ensures rowCount == if filteredFiles == [] then 1 else |filteredFiles|
    {
      var key := ParseCriterion(criterion);
      if key.Some? {
        SortByOrders(key.value, filteredFiles);
        filteredFiles := SortBy(key.value, filteredFiles);
      }
      DisplayFiles();
    }

    /**
     * `on_selection_changed`: on every change of the selection, the Download button
     * is enabled, and `files_selected` emits true, exactly when some item is selected.
     */
    method OnSelectionChanged(selectedItemRows: seq<nat>) returns (emitted: bool)
      modifies this`downloadEnabled
      ensures emitted <==> selectedItemRows != []
      ensures downloadEnabled == emitted
    {
      emitted := |selectedItemRows| > 0;
      downloadEnabled := emitted;
    }

    /**
     * `get_selected_files`: the files of the view in the rows of the selected items,
     * one per distinct row; rows past the end of the view (the "No files found" row)
     * give nothing. The rows are visited in the unspecified order of a Python set;
     * `picked` records the order taken.
     */
    method GetSelectedFiles(selectedItemRows: seq<nat>) returns (selected: seq<File>, ghost picked: seq<nat>)
      ensures IsSelection(filteredFiles, selectedItemRows, selected, picked)
      ensures |selected| <= |filteredFiles|
      ensures |selected| <= |set r | r in selectedItemRows|
    {
      var rows: set<nat> := {};
      var i := 0;
      while i < |selectedItemRows|
        invariant 0 <= i <= |selectedItemRows|
        invariant forall r :: r in rows <==> r in selectedItemRows[..i]
      {
        rows := rows + {selectedItemRows[i]};
        i := i + 1;
      }
      assert selectedItemRows[..i] == selectedItemRows;

      var rest := rows;
      selected, picked := [], [];
      while rest != {}
        invariant rest <= rows
        invariant |selected| == |picked|
        invariant forall k :: 0 <= k < |picked| ==> picked[k] < |filteredFiles| && selected[k] == filteredFiles[picked[k]]
        invariant forall k, l :: 0 <= k < l < |picked| ==> picked[k] != picked[l]
        invariant forall r :: r in picked <==> r in rows && r !in rest && r < |filteredFiles|
        decreases rest
      {
        var row :| row in rest;
        rest := rest - {row};
        if row < |filteredFiles| {
          selected := selected + [filteredFiles[row]];
          picked := picked + [row];
        }
      }
      SelectionBound(filteredFiles, selectedItemRows, selected, picked);
    }

    /**
     * `download_selected`: with no selected file nothing is called; otherwise the
     * selected files are downloaded to `destination`, the folder the dialog returned
     * (empty when it was cancelled).
     */
    method DownloadSelected(selectedItemRows: seq<nat>, destination: string)
      returns (ghost selected: seq<File>, ghost picked: seq<nat>)
      requires Valid()
      modifies this`calls
      ensures Valid()
      ensures IsSelection(filteredFiles, selectedItemRows, selected, picked)
      ensures calls == if selected == [] then old(calls) else old(calls) + DispatchCalls(selected, destination)
    {
      var chosen;
      chosen, picked := GetSelectedFiles(selectedItemRows);
      selected := chosen;
      if chosen == [] {
        return;
      }
      DispatchKeepsProtocol(calls, chosen, destination);
      calls := calls + [GetSettings(DownloadPathKey, "")];
      if destination != "" {
        calls := calls + [SetSettings(DownloadPathKey, destination)];
        calls := calls + [TransferFiles(chosen, destination)];
      }
    }

    /** `download_file`: downloads the one-element list `[file]` to `destination`. */
    method DownloadFile(file: File, destination: string)
      requires Valid()
      modifies this`calls
      ensures Valid()
      ensures calls == old(calls) + DispatchCalls([file], destination)
    {
      DispatchKeepsProtocol(calls, [file], destination);
      calls := calls + [GetSettings(DownloadPathKey, "")];
      if destination != "" {
        calls := calls + [SetSettings(DownloadPathKey, destination)];
        calls := calls + [TransferFiles([file], destination)];
      }
    }

    /** `clear_files`: empties catalog and view and resets the title. */
    method ClearFiles()
      requires Valid()
      modifies this`files, this`filteredFiles, this`header, this`rowCount
      ensures Valid()
      ensures files == [] && filteredFiles == [] && header == "Files" && rowCount == 1
    {
      files := [];
      filteredFiles := [];
      header := "Files";
      DisplayFiles();
    }
  }
}
