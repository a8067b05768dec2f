/** The record-extraction and selection logic of `QualisysParser` in
    code/ScriptClasses.py, without pandas, numpy or floating point. The
    class holds no state, so its methods are modelled as module members.
    The directory walk is a given sequence of walk entries and the parsed
    document of a file is given by a function `read` from path to root
    element. */
module QualisysParser {
  import opened Outcomes
  import Seqs
  import PyStr
  import opened XmlTree

  /** One row of the tidy table built by the generic branch of `parse_xml`:
      the `value` attributes of the owner, type, folder and name elements
      and the listed attributes of the component (absent ones are `None`). */
  datatype Record = Record(
    ownerValue: Option<string>,
    typeValue: Option<string>,
    folderValue: Option<string>,
    nameValue: Option<string>,
    componentValue: Option<string>,
    eventSequence: Option<string>,
    frameStart: Option<string>,
    frameEnd: Option<string>,
    timeStart: Option<string>,
    timeEnd: Option<string>,
    frames: Option<string>,
    data: Option<string>)

  /** Where a component sits: the folder, the name child of that folder,
      and the component child of that name. */
  datatype Placement = Placement(folder: Element, name: Element, component: Element)

  /** The table `parse_xml` returns. The session branch is not modelled
      beyond the path it read. */
  datatype Table = SessionTable(path: string) | TidyTable(rows: seq<Record>)

  /** The exceptions the selection code raises. */
  datatype Failure =
    | NoTable          // `select_files` found no file, so `df` is None
    | NoSuchColumn     // the table has no `name` column (session table, or no records at all)
    | NoDataAttribute  // a selected record has no `data`, so `None.split` fails
    | RaggedRows       // `np.array` over token rows of different lengths
    | EmptySelection   // `np.isnan(...).any(axis=1)` on the empty one-dimensional array
    | NoMatchingRow    // `iloc[0]` on an empty selection
    | NaMask           // `df.loc` with a mask holding NA, because a record has no name

  /** One entry of `os.walk`: a directory, its sub-directories and its files. */
  datatype WalkEntry = WalkEntry(root: string, dirs: seq<string>, files: seq<string>)

  // ---------------------------------------------------------------------
  // The generic branch of parse_xml

  /** The record appended for `owner`, `typ` and the placement `p`. */
  function RecordFor(owner: Element, typ: Element, p: Placement): Record
  {
    Record(
      Get(owner, "value"), Get(typ, "value"), Get(p.folder, "value"), Get(p.name, "value"),
      Get(p.component, "value"), Get(p.component, "Event_Sequence"),
      Get(p.component, "Frame_Start"), Get(p.component, "Frame_End"),
      Get(p.component, "Time_Start"), Get(p.component, "Time_End"),
      Get(p.component, "frames"), Get(p.component, "data"))
  }

  // The records of the generic branch are specified in the shape of its
  // loops: each function below extends the list `acc` with the records for
  // the first `k` elements of one loop level.

  /** `acc` extended with the records for the first `k` components of `name`. */
  function AddComponents(acc: seq<Record>, owner: Element, typ: Element, folder: Element, name: Element, k: nat): seq<Record>
    requires k <= |FindChildren(name, "component")|
  {
    if k == 0 then acc
    else AddComponents(acc, owner, typ, folder, name, k - 1)
         + [RecordFor(owner, typ, Placement(folder, name, FindChildren(name, "component")[k - 1]))]
  }

  /** `acc` extended with the records for the first `k` names of `folder`. */
  function AddNames(acc: seq<Record>, owner: Element, typ: Element, folder: Element, k: nat): seq<Record>
    requires k <= |FindChildren(folder, "name")|
  {
    if k == 0 then acc
    else
      var name := FindChildren(folder, "name")[k - 1];
      AddComponents(AddNames(acc, owner, typ, folder, k - 1), owner, typ, folder, name, |FindChildren(name, "component")|)
  }

  /** `acc` extended with the records for the first `k` folders of the document. */
  function AddFolders(acc: seq<Record>, root: Element, owner: Element, typ: Element, k: nat): seq<Record>
    requires k <= |FindAll(root, "folder")|
  {
    if k == 0 then acc
    else
      var folder := FindAll(root, "folder")[k - 1];
      AddNames(AddFolders(acc, root, owner, typ, k - 1), owner, typ, folder, |FindChildren(folder, "name")|)
  }

  /** `acc` extended with the records for the first `k` types of the document. */
  function AddTypes(acc: seq<Record>, root: Element, owner: Element, k: nat): seq<Record>
    requires k <= |FindAll(root, "type")|
  {
    if k == 0 then acc
    else AddFolders(AddTypes(acc, root, owner, k - 1), root, owner, FindAll(root, "type")[k - 1], |FindAll(root, "folder")|)
  }

  /** `acc` extended with the records for the first `k` owners of the document. */
  function AddOwners(acc: seq<Record>, root: Element, k: nat): seq<Record>
    requires k <= |FindAll(root, "owner")|
  {
    if k == 0 then acc
    else AddTypes(AddOwners(acc, root, k - 1), root, FindAll(root, "owner")[k - 1], |FindAll(root, "type")|)
  }

  /** The records of the generic branch, in the order they are appended. */
  function TidyRows(root: Element): seq<Record>
  {
    AddOwners([], root, |FindAll(root, "owner")|)
  }

  /** Lines 124-163: the generic branch of `parse_xml` on the parsed
      document `root`. `owner`, `type` and `folder` are each searched over
      the whole document; `name` and `component` among the children of the
      element above them. */
  method ParseGeneric(root: Element) returns (data: seq<Record>)
    ensures data == TidyRows(root)
  {
    data := [];
    var owners := FindAll(root, "owner");
    for oi := 0 to |owners|
      invariant data == AddOwners([], root, oi)
    {
      var owner := owners[oi];
      ghost var d0 := data;
      var types := FindAll(root, "type");
      for ti := 0 to |types|
        invariant data == AddTypes(d0, root, owner, ti)
      {
        var typ := types[ti];
        ghost var d1 := data;
        var folders := FindAll(root, "folder");
        for fi := 0 to |folders|
          invariant data == AddFolders(d1, root, owner, typ, fi)
        {
          var folder := folders[fi];
          ghost var d2 := data;
          var names := FindChildren(folder, "name");
          for ni := 0 to |names|
            invariant data == AddNames(d2, owner, typ, folder, ni)
          {
            var name := names[ni];
            ghost var d3 := data;
            var components := FindChildren(name, "component");
            for ci := 0 to |components|
              invariant data == AddComponents(d3, owner, typ, folder, name, ci)
            {
              // The `component is not None` test of line 145 always holds here.
              var component := components[ci];
              data := data + [RecordFor(owner, typ, Placement(folder, name, component))];
            }
          }
        }
      }
    }
  }

  // ---------------------------------------------------------------------
  // The shape of the table: a cross product

  /** The placements under the first `k` names of `folder`, in document order. */
  function NamePlacements(folder: Element, k: nat): seq<Placement>
    requires k <= |FindChildren(folder, "name")|
  {
    if k == 0 then []
    else
      var name := FindChildren(folder, "name")[k - 1];
      var components := FindChildren(name, "component");
      NamePlacements(folder, k - 1) + seq(|components|, c requires 0 <= c < |components| => Placement(folder, name, components[c]))
  }

  /** The placements under the first `k` folders of the document. */
  function FolderPlacements(root: Element, k: nat): seq<Placement>
    requires k <= |FindAll(root, "folder")|
  {
    if k == 0 then []
    else
      var folder := FindAll(root, "folder")[k - 1];
      FolderPlacements(root, k - 1) + NamePlacements(folder, |FindChildren(folder, "name")|)
  }

  /** Every (folder, name, component) nesting of the document: folders in
      document order, then the name children of each, then the component
      children of each name. */
  function Placements(root: Element): seq<Placement>
  {
    FolderPlacements(root, |FindAll(root, "folder")|)
  }

  /** Lines 131-142: a placement under `folder` pairs it with one of its
      `name` children and a `component` child of that name. */
  lemma {:induction false} NamePlacementsNested(folder: Element, k: nat)
    requires k <= |FindChildren(folder, "name")|
    ensures forall x :: 0 <= x < |NamePlacements(folder, k)| ==>
      var p := NamePlacements(folder, k)[x];
      p.folder == folder && p.name in FindChildren(folder, "name")
      && p.component in FindChildren(p.name, "component")
  {
    if k > 0 {
      NamePlacementsNested(folder, k - 1);
      var name := FindChildren(folder, "name")[k - 1];
      var components := FindChildren(name, "component");
      var prev := NamePlacements(folder, k - 1);
      var ps := NamePlacements(folder, k);
      forall x | 0 <= x < |ps|
        ensures ps[x].folder == folder && ps[x].name in FindChildren(folder, "name")
          && ps[x].component in FindChildren(ps[x].name, "component")
      {
        if x < |prev| {
          assert ps[x] == prev[x];
        } else {
          assert ps[x] == Placement(folder, name, components[x - |prev|]);
        }
      }
    }
  }

  /** Lines 129-142: every placement's folder is a `folder` element found
      anywhere in the document, its name a `name` child of that folder and
      its component a `component` child of that name. */
  lemma {:induction false} PlacementsNested(root: Element, k: nat)
    requires k <= |FindAll(root, "folder")|
    ensures forall x :: 0 <= x < |FolderPlacements(root, k)| ==>
      var p := FolderPlacements(root, k)[x];
      p.folder in FindAll(root, "folder") && p.name in FindChildren(p.folder, "name")
      && p.component in FindChildren(p.name, "component")
  {
    if k > 0 {
      PlacementsNested(root, k - 1);
      var folder := FindAll(root, "folder")[k - 1];
      NamePlacementsNested(folder, |FindChildren(folder, "name")|);
      var prev := FolderPlacements(root, k - 1);
      var block := NamePlacements(folder, |FindChildren(folder, "name")|);
      var ps := FolderPlacements(root, k);
      forall x | 0 <= x < |ps|
        ensures ps[x].folder in FindAll(root, "folder") && ps[x].name in FindChildren(ps[x].folder, "name")
          && ps[x].component in FindChildren(ps[x].name, "component")
      {
        if x < |prev| {
          assert ps[x] == prev[x];
        } else {
          assert ps[x] == block[x - |prev|];
        }
      }
    }
  }

  /** Number of components under the first `k` names of `folder`. */
  function NameComponentCount(folder: Element, k: nat): nat
    requires k <= |FindChildren(folder, "name")|
  {
    if k == 0 then 0
    else NameComponentCount(folder, k - 1) + |FindChildren(FindChildren(folder, "name")[k - 1], "component")|
  }

  /** Number of components under the names of the first `k` folders. */
  function FolderComponentCount(root: Element, k: nat): nat
    requires k <= |FindAll(root, "folder")|
  {
    if k == 0 then 0
    else
      var folder := FindAll(root, "folder")[k - 1];
      FolderComponentCount(root, k - 1) + NameComponentCount(folder, |FindChildren(folder, "name")|)
  }

  /** The records for one owner and one type, one per placement. */
  function Attach(owner: Element, typ: Element, ps: seq<Placement>): (r: seq<Record>)
    ensures |r| == |ps|
  {
    seq(|ps|, x requires 0 <= x < |ps| => RecordFor(owner, typ, ps[x]))
  }

  lemma AttachAppend(owner: Element, typ: Element, a: seq<Placement>, b: seq<Placement>)
    ensures Attach(owner, typ, a + b) == Attach(owner, typ, a) + Attach(owner, typ, b)
  {
  }

  lemma {:induction false} AddComponentsAttach(acc: seq<Record>, owner: Element, typ: Element, folder: Element, name: Element, k: nat)
    requires k <= |FindChildren(name, "component")|
    ensures var components := FindChildren(name, "component");
      AddComponents(acc, owner, typ, folder, name, k)
      == acc + Attach(owner, typ, seq(k, c requires 0 <= c < k => Placement(folder, name, components[c])))
  {
    if k > 0 {
      AddComponentsAttach(acc, owner, typ, folder, name, k - 1);
    }
  }

  lemma {:induction false} AddNamesAttach(acc: seq<Record>, owner: Element, typ: Element, folder: Element, k: nat)
    requires k <= |FindChildren(folder, "name")|
    ensures AddNames(acc, owner, typ, folder, k) == acc + Attach(owner, typ, NamePlacements(folder, k))
  {
    if k > 0 {
      AddNamesAttach(acc, owner, typ, folder, k - 1);
      var name := FindChildren(folder, "name")[k - 1];
      var components := FindChildren(name, "component");
      AddComponentsAttach(AddNames(acc, owner, typ, folder, k - 1), owner, typ, folder, name, |components|);
      var block := seq(|components|, c requires 0 <= c < |components| => Placement(folder, name, components[c]));
      AttachAppend(owner, typ, NamePlacements(folder, k - 1), block);
    }
  }

  lemma {:induction false} AddFoldersAttach(acc: seq<Record>, root: Element, owner: Element, typ: Element, k: nat)
    requires k <= |FindAll(root, "folder")|
    ensures AddFolders(acc, root, owner, typ, k) == acc + Attach(owner, typ, FolderPlacements(root, k))
  {
    if k > 0 {
      AddFoldersAttach(acc, root, owner, typ, k - 1);
      var folder := FindAll(root, "folder")[k - 1];
      AddNamesAttach(AddFolders(acc, root, owner, typ, k - 1), owner, typ, folder, |FindChildren(folder, "name")|);
      var block := NamePlacements(folder, |FindChildren(folder, "name")|);
      AttachAppend(owner, typ, FolderPlacements(root, k - 1), block);
    }
  }

  /** The record blocks of one owner, one block per type among the first
      `k` types of the document. */
  function TypeBlocks(root: Element, owner: Element, k: nat): (r: seq<seq<Record>>)
    requires k <= |FindAll(root, "type")|
    ensures |r| == k
    ensures forall j :: 0 <= j < k ==> r[j] == Attach(owner, FindAll(root, "type")[j], Placements(root))
  {
    if k == 0 then []
    else TypeBlocks(root, owner, k - 1) + [Attach(owner, FindAll(root, "type")[k - 1], Placements(root))]
  }

  /** The record blocks of the first `k` owners of the document. */
  function OwnerBlocks(root: Element, k: nat): (r: seq<seq<Record>>)
    requires k <= |FindAll(root, "owner")|
    ensures |r| == k
    ensures forall i :: 0 <= i < k ==>
      r[i] == Seqs.Flatten(TypeBlocks(root, FindAll(root, "owner")[i], |FindAll(root, "type")|))
  {
    if k == 0 then []
    else OwnerBlocks(root, k - 1) + [Seqs.Flatten(TypeBlocks(root, FindAll(root, "owner")[k - 1], |FindAll(root, "type")|))]
  }

  lemma {:induction false} AddTypesBlocks(acc: seq<Record>, root: Element, owner: Element, k: nat)
    requires k <= |FindAll(root, "type")|
    ensures AddTypes(acc, root, owner, k) == acc + Seqs.Flatten(TypeBlocks(root, owner, k))
  {
    if k > 0 {
      AddTypesBlocks(acc, root, owner, k - 1);
      var typ := FindAll(root, "type")[k - 1];
      AddFoldersAttach(AddTypes(acc, root, owner, k - 1), root, owner, typ, |FindAll(root, "folder")|);
      Seqs.FlattenSnoc(TypeBlocks(root, owner, k - 1), Attach(owner, typ, Placements(root)));
    }
  }

  lemma {:induction false} AddOwnersBlocks(root: Element, k: nat)
    requires k <= |FindAll(root, "owner")|
    ensures AddOwners([], root, k) == Seqs.Flatten(OwnerBlocks(root, k))
  {
    if k > 0 {
      AddOwnersBlocks(root, k - 1);
      var owner := FindAll(root, "owner")[k - 1];
      var t := |FindAll(root, "type")|;
      AddTypesBlocks(AddOwners([], root, k - 1), root, owner, t);
      Seqs.FlattenSnoc(OwnerBlocks(root, k - 1), Seqs.Flatten(TypeBlocks(root, owner, t)));
    }
  }

  lemma {:induction false} PlacementsCount(root: Element, k: nat)
    requires k <= |FindAll(root, "folder")|
    ensures |FolderPlacements(root, k)| == FolderComponentCount(root, k)
  {
    if k > 0 {
      PlacementsCount(root, k - 1);
      var folder := FindAll(root, "folder")[k - 1];
      NamePlacementsCount(folder, |FindChildren(folder, "name")|);
    }
  }

  lemma {:induction false} NamePlacementsCount(folder: Element, k: nat)
    requires k <= |FindChildren(folder, "name")|
    ensures |NamePlacements(folder, k)| == NameComponentCount(folder, k)
  {
    if k > 0 {
      NamePlacementsCount(folder, k - 1);
    }
  }

  /** The components of the `n`-th name of `folder` come right after those
      of its earlier names. */
  lemma PlacementsOfName(folder: Element, n: nat, c: nat)
    requires n < |FindChildren(folder, "name")|
    requires c < |FindChildren(FindChildren(folder, "name")[n], "component")|
    ensures var name := FindChildren(folder, "name")[n];
      var at := NameComponentCount(folder, n) + c;
      at < |NamePlacements(folder, n + 1)|
      && NamePlacements(folder, n + 1)[at] == Placement(folder, name, FindChildren(name, "component")[c])
  {
    var name := FindChildren(folder, "name")[n];
    var components := FindChildren(name, "component");
    var block := seq(|components|, c requires 0 <= c < |components| => Placement(folder, name, components[c]));
    NamePlacementsCount(folder, n);
    Seqs.SuffixAt(NamePlacements(folder, n), block, c);
  }

  /** Lines 138-142, the converse of `NamePlacementsNested`: component `c`
      of name `n` of `folder` is a placement under the first `k > n` names,
      at the position the name loop reaches it, after the components of the
      earlier names. */
  lemma {:induction false} NamePlacementsComplete(folder: Element, k: nat, n: nat, c: nat)
    requires n < k <= |FindChildren(folder, "name")|
    requires c < |FindChildren(FindChildren(folder, "name")[n], "component")|
    ensures var name := FindChildren(folder, "name")[n];
      var at := NameComponentCount(folder, n) + c;
      at < |NamePlacements(folder, k)|
      && NamePlacements(folder, k)[at] == Placement(folder, name, FindChildren(name, "component")[c])
  {
    if n == k - 1 {
      PlacementsOfName(folder, n, c);
    } else {
      var last := FindChildren(folder, "name")[k - 1];
      var components := FindChildren(last, "component");
      var block := seq(|components|, c requires 0 <= c < |components| => Placement(folder, last, components[c]));
      NamePlacementsComplete(folder, k - 1, n, c);
      Seqs.PrefixAt(NamePlacements(folder, k - 1), block, NameComponentCount(folder, n) + c);
    }
  }

  /** The nestings of the `f`-th folder come right after those of the
      earlier folders. */
  lemma PlacementsOfFolder(root: Element, f: nat, n: nat, c: nat)
    requires f < |FindAll(root, "folder")|
    requires n < |FindChildren(FindAll(root, "folder")[f], "name")|
    requires c < |FindChildren(FindChildren(FindAll(root, "folder")[f], "name")[n], "component")|
    ensures var folder := FindAll(root, "folder")[f];
      var name := FindChildren(folder, "name")[n];
      var at := FolderComponentCount(root, f) + NameComponentCount(folder, n) + c;
      at < |FolderPlacements(root, f + 1)|
      && FolderPlacements(root, f + 1)[at] == Placement(folder, name, FindChildren(name, "component")[c])
  {
    var folder := FindAll(root, "folder")[f];
    var block := NamePlacements(folder, |FindChildren(folder, "name")|);
    PlacementsCount(root, f);
    NamePlacementsComplete(folder, |FindChildren(folder, "name")|, n, c);
    Seqs.SuffixAt(FolderPlacements(root, f), block, NameComponentCount(folder, n) + c);
  }

  /** Lines 135-142, the converse of `PlacementsNested`: component `c` of
      name `n` of folder `f` is a placement under the first `k > f` folders,
      at the position the folder and name loops reach it. */
  lemma {:induction false} PlacementsComplete(root: Element, k: nat, f: nat, n: nat, c: nat)
    requires f < k <= |FindAll(root, "folder")|
    requires n < |FindChildren(FindAll(root, "folder")[f], "name")|
    requires c < |FindChildren(FindChildren(FindAll(root, "folder")[f], "name")[n], "component")|
    ensures var folder := FindAll(root, "folder")[f];
      var name := FindChildren(folder, "name")[n];
      var at := FolderComponentCount(root, f) + NameComponentCount(folder, n) + c;
      at < |FolderPlacements(root, k)|
      && FolderPlacements(root, k)[at] == Placement(folder, name, FindChildren(name, "component")[c])
  {
    if f == k - 1 {
      PlacementsOfFolder(root, f, n, c);
    } else {
      var folder := FindAll(root, "folder")[f];
      var last := FindAll(root, "folder")[k - 1];
      PlacementsComplete(root, k - 1, f, n, c);
      Seqs.PrefixAt(FolderPlacements(root, k - 1), NamePlacements(last, |FindChildren(last, "name")|),
        FolderComponentCount(root, f) + NameComponentCount(folder, n) + c);
    }
  }

  /** Every (folder, name, component) nesting of the document is a placement. */
  lemma PlacementsCover(root: Element, f: nat, n: nat, c: nat)
    requires f < |FindAll(root, "folder")|
    requires n < |FindChildren(FindAll(root, "folder")[f], "name")|
    requires c < |FindChildren(FindChildren(FindAll(root, "folder")[f], "name")[n], "component")|
    ensures var folder := FindAll(root, "folder")[f];
      var name := FindChildren(folder, "name")[n];
      Placement(folder, name, FindChildren(name, "component")[c]) in Placements(root)
  {
    PlacementsComplete(root, |FindAll(root, "folder")|, f, n, c);
  }

  /** Number of records each owner contributes: one per type and placement. */
  function OwnerWidth(root: Element): nat
  {
    |FindAll(root, "type")| * |Placements(root)|
  }

  /** The records of one owner: one per type and placement, the record for
      type `j` and placement `x` at `j * e + x`. */
  lemma OwnerBlockAt(root: Element, owner: Element, j: nat, x: nat)
    requires j < |FindAll(root, "type")| && x < |Placements(root)|
    ensures var y := Seqs.Offset(j, x, |Placements(root)|);
      var block := Seqs.Flatten(TypeBlocks(root, owner, |FindAll(root, "type")|));
      |block| == OwnerWidth(root) && y < |block| &&
      block[y] == RecordFor(owner, FindAll(root, "type")[j], Placements(root)[x])
  {
    var ts := TypeBlocks(root, owner, |FindAll(root, "type")|);
    Seqs.FlattenUniformLength(ts, |Placements(root)|);
    Seqs.FlattenUniformAt(ts, |Placements(root)|, j, x);
  }

  /** Every owner contributes the same number of records. */
  lemma OwnerBlocksUniform(root: Element)
    ensures var blocks := OwnerBlocks(root, |FindAll(root, "owner")|);
      forall i :: 0 <= i < |blocks| ==> |blocks[i]| == OwnerWidth(root)
  {
    var blocks := OwnerBlocks(root, |FindAll(root, "owner")|);
    forall i | 0 <= i < |blocks| ensures |blocks[i]| == OwnerWidth(root) {
      Seqs.FlattenUniformLength(TypeBlocks(root, FindAll(root, "owner")[i], |FindAll(root, "type")|), |Placements(root)|);
    }
  }

  /** Lines 129-142: the table has one record per owner, per type and per
      component under a name under a folder, where owners, types and
      folders are each taken from the whole document. */
  lemma TidyRowsCount(root: Element)
    ensures |TidyRows(root)|
      == |FindAll(root, "owner")| * (|FindAll(root, "type")| * FolderComponentCount(root, |FindAll(root, "folder")|))
  {
    var o := |FindAll(root, "owner")|;
    PlacementsCount(root, |FindAll(root, "folder")|);
    AddOwnersBlocks(root, o);
    OwnerBlocksUniform(root);
    Seqs.FlattenUniformLength(OwnerBlocks(root, o), OwnerWidth(root));
  }

  /** Position of the record for owner `i`, type `j` and placement `x`. */
  function RowIndex(root: Element, i: nat, j: nat, x: nat): nat
  {
    Seqs.Offset(i, Seqs.Offset(j, x, |Placements(root)|), OwnerWidth(root))
  }

  /** Lines 129-159: records come in nested-loop order, owner outermost,
      then type, then (folder, name, component) placement: the record for
      owner `i`, type `j` and placement `x` is at `(i * t + j) * e + x` for
      `t` types and `e` placements. */
  lemma TidyRowsOrder(root: Element, i: nat, j: nat, x: nat)
    requires i < |FindAll(root, "owner")| && j < |FindAll(root, "type")| && x < |Placements(root)|
    ensures RowIndex(root, i, j, x) < |TidyRows(root)|
    ensures TidyRows(root)[RowIndex(root, i, j, x)]
      == RecordFor(FindAll(root, "owner")[i], FindAll(root, "type")[j], Placements(root)[x])
  {
    var o := |FindAll(root, "owner")|;
    AddOwnersBlocks(root, o);
    OwnerBlocksUniform(root);
    var owner := FindAll(root, "owner")[i];
    OwnerBlockAt(root, owner, j, x);
    Seqs.FlattenUniformAt(OwnerBlocks(root, o), OwnerWidth(root), i, Seqs.Offset(j, x, |Placements(root)|));
  }

  // ---------------------------------------------------------------------
  // parse_xml and select_files

  /** Lines 103 and 123-163: the table `parse_xml` returns for `path`; the
      generic branch reads the document `read(path)`. */
  function ParsedTable(path: string, read: string -> Element): Table
  {
    if PyStr.Contains(path, "session.xml") then SessionTable(path)
    else TidyTable(TidyRows(read(path)))
  }

  /** Lines 103-163: the session branch is taken exactly when `session.xml`
      occurs in the path; otherwise the records of the generic branch are
      returned. */
  method ParseXml(path: string, read: string -> Element) returns (df: Table)
    ensures df.SessionTable? <==> exists i :: PyStr.OccursAt(path, "session.xml", i)
    ensures df.SessionTable? ==> df.path == path
    ensures df.TidyTable? ==> df.rows == TidyRows(read(path))
    ensures df == ParsedTable(path, read)
  {
    PyStr.ContainsIff(path, "session.xml");
    if PyStr.Contains(path, "session.xml") {
      df := SessionTable(path);
    } else {
      var root := read(path);
      var data := ParseGeneric(root);
      df := TidyTable(data);
    }
  }

  /** The (directory, file name) pairs of one walk entry, in order. */
  function FilePairs(entry: WalkEntry): (r: seq<(string, string)>)
    ensures |r| == |entry.files|
    ensures forall f :: 0 <= f < |r| ==> r[f] == (entry.root, entry.files[f])
  {
    seq(|entry.files|, f requires 0 <= f < |entry.files| => (entry.root, entry.files[f]))
  }

  /** The (directory, file name) pairs of the first `k` walk entries, in
      the order the nested loops visit them. */
  function Candidates(walk: seq<WalkEntry>, k: nat): seq<(string, string)>
    requires k <= |walk|
  {
    if k == 0 then [] else Candidates(walk, k - 1) + FilePairs(walk[k - 1])
  }

  /** Every (directory, file name) pair of the walk, in visiting order. */
  function Walked(walk: seq<WalkEntry>): seq<(string, string)>
  {
    Candidates(walk, |walk|)
  }

  /** Line 24: the file name ends with `suffix`. */
  function NameEndsWith(suffix: string): ((string, string)) -> bool
  {
    (c: (string, string)) => PyStr.EndsWith(c.1, suffix)
  }

  /** Lines 22-25: the path of the first file of the walk whose name ends
      with `suffix`, if any. */
  function SelectedPath(walk: seq<WalkEntry>, suffix: string): Option<string>
  {
    var cs := Walked(walk);
    match Seqs.FirstIndex(cs, NameEndsWith(suffix))
    case None => None
    case Some(i) => Some(PyStr.PathJoin(cs[i].0, cs[i].1))
  }

  /** Lines 22-27: the parsed first match, or `None` when the loops end
      without returning. */
  function SelectedTable(walk: seq<WalkEntry>, suffix: string, read: string -> Element): Option<Table>
  {
    match SelectedPath(walk, suffix)
    case None => None
    case Some(path) => Some(ParsedTable(path, read))
  }

  lemma {:induction false} CandidatesPrefix(walk: seq<WalkEntry>, r: nat, n: nat)
    requires r <= n <= |walk|
    ensures |Candidates(walk, r)| <= |Candidates(walk, n)|
    ensures Candidates(walk, n)[..|Candidates(walk, r)|] == Candidates(walk, r)
    decreases n - r
  {
    if r < n {
      CandidatesPrefix(walk, r + 1, n);
      var a, b := Candidates(walk, r), Candidates(walk, r + 1);
      assert b[..|a|] == a;
      assert Candidates(walk, n)[..|a|] == Candidates(walk, n)[..|b|][..|a|];
    }
  }

  /** Lines 22-27: the walk is scanned entry by entry and file by file; the
      first file whose name ends with `xmlFilename` is joined to its
      directory, parsed and returned. */
  method SelectFiles(walk: seq<WalkEntry>, xmlFilename: string, read: string -> Element) returns (df: Option<Table>)
    ensures df == SelectedTable(walk, xmlFilename, read)
  {
    ghost var all := Walked(walk);
    assert all == Candidates(walk, |walk|);
    ghost var p := NameEndsWith(xmlFilename);
    for r := 0 to |walk|
      invariant |Candidates(walk, r)| <= |all|
      invariant forall c :: 0 <= c < |Candidates(walk, r)| ==> !p(all[c])
    {
      var entry := walk[r];
      ghost var seen := |Candidates(walk, r)|;
      CandidatesPrefix(walk, r + 1, |walk|);
      ghost var next := Candidates(walk, r + 1);
      assert next == Candidates(walk, r) + FilePairs(entry);
      assert all[..|next|] == next;
      for f := 0 to |entry.files|
        invariant forall c :: 0 <= c < seen + f ==> !p(all[c])
      {
        var file := entry.files[f];
        assert all[seen + f] == next[seen + f] == (entry.root, file);
        if PyStr.EndsWith(file, xmlFilename) {
          var filePath := PyStr.PathJoin(entry.root, file);
          Seqs.FirstIndexAt(all, p, seen + f);
          var table := ParseXml(filePath, read);
          return Some(table);
        }
      }
    }
    assert Seqs.FirstIndex(all, p) == None;
    df := None;
  }

  /** Lines 22-24: the candidates are the files of each walk entry in turn,
      each paired with the directory of its entry. */
  lemma CandidatesAt(walk: seq<WalkEntry>, k: nat, f: nat)
    requires k < |walk| && f < |walk[k].files|
    ensures |Candidates(walk, k)| + f < |Walked(walk)|
    ensures Walked(walk)[|Candidates(walk, k)| + f] == (walk[k].root, walk[k].files[f])
  {
    CandidatesPrefix(walk, k + 1, |walk|);
    assert Candidates(walk, k + 1) == Candidates(walk, k) + FilePairs(walk[k]);
    assert Candidates(walk, k + 1)[|Candidates(walk, k)| + f] == (walk[k].root, walk[k].files[f]);
  }

  /** Lines 22-27: nothing is selected exactly when no file name ends with
      the suffix; otherwise the selection is the first such file in walk
      order, joined to its directory. */
  lemma SelectedPathFirstMatch(walk: seq<WalkEntry>, suffix: string)
    ensures SelectedPath(walk, suffix).None?
      <==> forall i :: 0 <= i < |Walked(walk)| ==> !PyStr.EndsWith(Walked(walk)[i].1, suffix)
    ensures SelectedPath(walk, suffix).Some? ==>
      exists i :: 0 <= i < |Walked(walk)| && PyStr.EndsWith(Walked(walk)[i].1, suffix)
        && (forall j :: 0 <= j < i ==> !PyStr.EndsWith(Walked(walk)[j].1, suffix))
        && SelectedPath(walk, suffix).value == PyStr.PathJoin(Walked(walk)[i].0, Walked(walk)[i].1)
  {
    var cs := Walked(walk);
    var p := NameEndsWith(suffix);
    var r := Seqs.FirstIndex(cs, p);
    if r.Some? {
      var i := r.value;
      assert PyStr.EndsWith(cs[i].1, suffix);
      forall j | 0 <= j < i ensures !PyStr.EndsWith(cs[j].1, suffix) {
        assert !p(cs[j]);
      }
      assert SelectedPath(walk, suffix) == Some(PyStr.PathJoin(cs[i].0, cs[i].1));
    } else {
      forall i | 0 <= i < |cs| ensures !PyStr.EndsWith(cs[i].1, suffix) {
        assert !p(cs[i]);
      }
    }
  }

  // ---------------------------------------------------------------------
  // load_timeseries_data and get_parameter

  /** Line 49, one column: pandas `str.contains` on a field, which never
      holds for a missing value. */
  predicate FieldContains(v: Option<string>, pattern: string)
    ensures FieldContains(v, pattern) ==> v.Some?
    ensures v == Some(pattern) ==> FieldContains(v, pattern)
  {
    v.Some? && PyStr.Contains(v.value, pattern)
  }

  /** Line 49: the four conditions of the timeseries selection. */
  predicate IsTimeseriesRow(r: Record, name: string, componentValue: string, typ: string)
    ensures IsTimeseriesRow(r, name, componentValue, typ) ==>
      r.nameValue.Some? && r.componentValue.Some? && r.typeValue.Some? && r.ownerValue.Some?
  {
    FieldContains(r.nameValue, name) && FieldContains(r.componentValue, componentValue)
    && FieldContains(r.typeValue, typ) && FieldContains(r.ownerValue, "Gait")
  }

  function TimeseriesQuery(name: string, componentValue: string, typ: string): Record -> bool
  {
    (r: Record) => IsTimeseriesRow(r, name, componentValue, typ)
  }

  /** Line 204: the name condition of `get_parameter`. */
  function NameQuery(name: string): (q: Record -> bool)
    ensures forall r: Record :: r.nameValue.None? ==> !q(r)
    ensures forall r: Record :: r.nameValue == Some(name) ==> q(r)
  {
    (r: Record) => FieldContains(r.nameValue, name)
  }

  /** One entry of a data row: the `nodata` sentinel, or a number still in
      its text form. */
  datatype Token = Missing | Number(text: string)

  /** Lines 57 and 208, one entry. */
  function ReadToken(s: string): (t: Token)
    ensures t == Missing <==> s == "nodata"
    ensures TokenText(t) == s
  {
    if s == "nodata" then Missing else Number(s)
  }

  /** The text a token was read from. */
  function TokenText(t: Token): string
  {
    match t
    case Missing => "nodata"
    case Number(text) => text
  }

  /** Lines 56-57 and 207-208: the `data` attribute split at commas, one
      token per piece. */
  function Tokenise(data: string): (r: seq<Token>)
    ensures |r| == |PyStr.Split(data, ',')|
  {
    var parts := PyStr.Split(data, ',');
    seq(|parts|, i requires 0 <= i < |parts| => ReadToken(parts[i]))
  }

  /** Lines 56-57 and 207-208: one token more than there are commas; a
      token is Missing exactly when its piece is `nodata`, and a number
      token keeps the text of its piece. */
  lemma TokeniseSpec(data: string)
    ensures |Tokenise(data)| == PyStr.CountOf(data, ',') + 1
    ensures forall i :: 0 <= i < |Tokenise(data)| ==>
      (Tokenise(data)[i] == Missing <==> PyStr.Split(data, ',')[i] == "nodata")
    ensures forall i :: 0 <= i < |Tokenise(data)| && Tokenise(data)[i].Number? ==>
      Tokenise(data)[i].text == PyStr.Split(data, ',')[i]
  {
    PyStr.SplitLength(data, ',');
  }

  /** The text of a token row, joined with commas. */
  function RowText(row: seq<Token>): string
  {
    PyStr.JoinWith(seq(|row|, i requires 0 <= i < |row| => TokenText(row[i])), ',')
  }

  /** Tokenising loses nothing: joining the token texts gives the data back. */
  lemma TokeniseRoundTrip(data: string)
    ensures RowText(Tokenise(data)) == data
  {
    var parts := PyStr.Split(data, ',');
    var row := Tokenise(data);
    assert seq(|row|, i requires 0 <= i < |row| => TokenText(row[i])) == parts;
    PyStr.JoinSplit(data, ',');
  }

  /** Line 63: a row with no missing entry. */
  predicate Complete(row: seq<Token>)
  {
    Missing !in row
  }

  /** Line 63: the rows without a missing entry, in their order. */
  function DropMissingRows(m: seq<seq<Token>>): (r: seq<seq<Token>>)
    ensures |r| <= |m|
    ensures forall i :: 0 <= i < |r| ==> Complete(r[i])
  {
    Seqs.FilterMembers(m, Complete);
    Seqs.Filter(m, Complete)
  }

  /** Line 63: every kept row is complete and comes from the matrix, every
      complete row of the matrix is kept, and dropping distributes over
      concatenation, so the kept rows keep their order. */
  lemma DropMissingRowsSpec(m: seq<seq<Token>>, n: seq<seq<Token>>)
    ensures forall i :: 0 <= i < |DropMissingRows(m)| ==>
      DropMissingRows(m)[i] in m && Complete(DropMissingRows(m)[i])
    ensures forall i :: 0 <= i < |m| && Complete(m[i]) ==> m[i] in DropMissingRows(m)
    ensures DropMissingRows(m + n) == DropMissingRows(m) + DropMissingRows(n)
  {
    Seqs.FilterMembers(m, Complete);
    Seqs.FilterAppend(m, n, Complete);
  }

  /** Every record of `rows` has a `data` attribute. */
  predicate AllHaveData(rows: seq<Record>)
  {
    forall i :: 0 <= i < |rows| ==> rows[i].data.Some?
  }

  /** Lines 54-58: the matrix the loop builds, one token row per record. */
  function TokenRows(rows: seq<Record>): (m: seq<seq<Token>>)
    requires AllHaveData(rows)
    ensures |m| == |rows|
    ensures forall i :: 0 <= i < |m| ==> m[i] == Tokenise(rows[i].data.value)
  {
    if rows == [] then []
    else TokenRows(rows[..|rows| - 1]) + [Tokenise(rows[|rows| - 1].data.value)]
  }

  /** Line 59: `np.array` builds a two-dimensional array only when all rows
      have the same length. */
  predicate Rectangular(m: seq<seq<Token>>)
  {
    forall i, j :: 0 <= i < |m| && 0 <= j < |m| ==> |m[i]| == |m[j]|
  }

  /** Lines 53-63 on the selected records: the matrix of complete rows,
      or the exception the code raises first. */
  function MatrixOf(selected: seq<Record>): Result<seq<seq<Token>>, Failure>
  {
    if !AllHaveData(selected) then Err(NoDataAttribute)
    else
      var m := TokenRows(selected);
      if !Rectangular(m) then Err(RaggedRows)
      else if m == [] then Err(EmptySelection)
      else Ok(DropMissingRows(m))
  }

  /** Lines 48-63: the matrix of complete rows for the selection, or the
      exception the code raises first. */
  function TimeseriesMatrix(df: Option<Table>, name: string, componentValue: string, typ: string): Result<seq<seq<Token>>, Failure>
  {
    if df.None? then Err(NoTable)
    else if df.value.SessionTable? || df.value.rows == [] then Err(NoSuchColumn)
    else MatrixOf(Seqs.Filter(df.value.rows, TimeseriesQuery(name, componentValue, typ)))
  }

  /** Lines 53-63: the matrix is built one token row per selected record,
      then the incomplete rows are removed. */
  method BuildMatrix(selected: seq<Record>) returns (result: Result<seq<seq<Token>>, Failure>)
    ensures result == MatrixOf(selected)
  {
    var matrix: seq<seq<Token>> := [];
    for i := 0 to |selected|
      invariant AllHaveData(selected[..i])
      invariant matrix == TokenRows(selected[..i])
    {
      var data := selected[i].data;
      if data.None? {
        return Err(NoDataAttribute);
      }
      assert selected[..i + 1][..i] == selected[..i];
      matrix := matrix + [Tokenise(data.value)];
    }
    assert selected[..|selected|] == selected;
    if !Rectangular(matrix) {
      return Err(RaggedRows);
    }
    if matrix == [] {
      return Err(EmptySelection);
    }
    result := Ok(DropMissingRows(matrix));
  }

  /** Lines 48-63, up to the removal of incomplete rows: the timeseries
      table is selected, filtered by the four conditions and tokenised row
      by row. */
  method LoadTimeseriesData(walk: seq<WalkEntry>, read: string -> Element, name: string, componentValue: string, typ: string)
    returns (result: Result<seq<seq<Token>>, Failure>)
    ensures result == TimeseriesMatrix(SelectedTable(walk, "timeseries.xml", read), name, componentValue, typ)
  {
    var df := SelectFiles(walk, "timeseries.xml", read);
    if df.None? {
      return Err(NoTable);
    }
    if df.value.SessionTable? || df.value.rows == [] {
      return Err(NoSuchColumn);
    }
    var selected := Seqs.Filter(df.value.rows, TimeseriesQuery(name, componentValue, typ));
    result := BuildMatrix(selected);
  }

  /** Lines 49-63: every row of the result is complete and is the token row
      of a record that meets the four conditions; every record that meets
      them has data, and its token row is in the result when complete. */
  lemma TimeseriesMatrixRows(rows: seq<Record>, name: string, componentValue: string, typ: string, m: seq<seq<Token>>)
    requires TimeseriesMatrix(Some(TidyTable(rows)), name, componentValue, typ) == Ok(m)
    ensures forall k :: 0 <= k < |m| ==> Complete(m[k])
    ensures forall k :: 0 <= k < |m| ==>
      exists r :: r in rows && IsTimeseriesRow(r, name, componentValue, typ) && r.data.Some? && m[k] == Tokenise(r.data.value)
    ensures forall r :: r in rows && IsTimeseriesRow(r, name, componentValue, typ) ==>
      r.data.Some? && (Complete(Tokenise(r.data.value)) ==> Tokenise(r.data.value) in m)
  {
    var p := TimeseriesQuery(name, componentValue, typ);
    var selected := Seqs.Filter(rows, p);
    Seqs.FilterMembers(rows, p);
    var all := TokenRows(selected);
    DropMissingRowsSpec(all, []);
    assert m == DropMissingRows(all);
    forall k | 0 <= k < |m|
      ensures exists r :: r in rows && IsTimeseriesRow(r, name, componentValue, typ) && r.data.Some? && m[k] == Tokenise(r.data.value)
    {
      var j :| 0 <= j < |all| && all[j] == m[k];
      assert p(selected[j]);
    }
    forall r | r in rows && IsTimeseriesRow(r, name, componentValue, typ)
      ensures r.data.Some? && (Complete(Tokenise(r.data.value)) ==> Tokenise(r.data.value) in m)
    {
      var i :| 0 <= i < |rows| && rows[i] == r;
      assert p(rows[i]);
      var j :| 0 <= j < |selected| && selected[j] == r;
      assert all[j] == Tokenise(r.data.value);
    }
  }

  /** Lines 49-57: with a non-empty tidy table, the code fails on `None.split`
      exactly when a record meeting the four conditions has no data. */
  lemma TimeseriesMissingData(rows: seq<Record>, name: string, componentValue: string, typ: string)
    requires rows != []
    ensures TimeseriesMatrix(Some(TidyTable(rows)), name, componentValue, typ) == Err(NoDataAttribute)
      <==> exists r :: r in rows && IsTimeseriesRow(r, name, componentValue, typ) && r.data.None?
  {
    var p := TimeseriesQuery(name, componentValue, typ);
    var selected := Seqs.Filter(rows, p);
    Seqs.FilterMembers(rows, p);
    if exists r :: r in rows && IsTimeseriesRow(r, name, componentValue, typ) && r.data.None? {
      var r :| r in rows && IsTimeseriesRow(r, name, componentValue, typ) && r.data.None?;
      var i :| 0 <= i < |rows| && rows[i] == r;
      assert p(rows[i]);
      var j :| 0 <= j < |selected| && selected[j] == r;
      assert !AllHaveData(selected);
    }
    if !AllHaveData(selected) {
      var j :| 0 <= j < |selected| && selected[j].data.None?;
      assert p(selected[j]);
    }
  }

  /** Lines 49-63: on a non-empty tidy table, the selection is empty, and
      `np.isnan(...).any(axis=1)` fails, exactly when no record meets the
      four conditions. */
  lemma TimeseriesEmptySelection(rows: seq<Record>, name: string, componentValue: string, typ: string)
    requires rows != []
    ensures TimeseriesMatrix(Some(TidyTable(rows)), name, componentValue, typ) == Err(EmptySelection)
      <==> forall r :: r in rows ==> !IsTimeseriesRow(r, name, componentValue, typ)
  {
    var p := TimeseriesQuery(name, componentValue, typ);
    var selected := Seqs.Filter(rows, p);
    Seqs.FilterFirst(rows, p);
    if forall r :: r in rows ==> !IsTimeseriesRow(r, name, componentValue, typ) {
      forall j | 0 <= j < |rows| ensures !p(rows[j]) {
        assert rows[j] in rows;
      }
    }
    if selected == [] {
      forall r | r in rows ensures !IsTimeseriesRow(r, name, componentValue, typ) {
        var i :| 0 <= i < |rows| && rows[i] == r;
        assert !p(rows[i]);
      }
    } else if AllHaveData(selected) {
      assert |TokenRows(selected)| > 0;
    }
  }

  /** Line 204: the bare `str.contains` mask holds NA for a record without
      a name, and `df.loc` at line 205 refuses such a mask; in the `&` chain
      of line 49 the NA values become False instead. */
  predicate AllNamed(rows: seq<Record>)
  {
    forall i :: 0 <= i < |rows| ==> rows[i].nameValue.Some?
  }

  /** Lines 203-208: the tokens of the first record whose name contains
      `name`, or the exception the code raises first. */
  function ParameterTokens(df: Option<Table>, name: string): Result<seq<Token>, Failure>
  {
    if df.None? then Err(NoTable)
    else if df.value.SessionTable? || df.value.rows == [] then Err(NoSuchColumn)
    else if !AllNamed(df.value.rows) then Err(NaMask)
    else
      match Seqs.FirstIndex(df.value.rows, NameQuery(name))
      case None => Err(NoMatchingRow)
      case Some(i) =>
        if df.value.rows[i].data.None? then Err(NoDataAttribute)
        else Ok(Tokenise(df.value.rows[i].data.value))
  }

  /** Lines 203-208: the metrics table is selected, filtered by the name
      condition, and the `data` of its first remaining record is tokenised.
      The walk is a parameter here. */
  method GetParameter(walk: seq<WalkEntry>, read: string -> Element, name: string) returns (result: Result<seq<Token>, Failure>)
    ensures result == ParameterTokens(SelectedTable(walk, "metrics_per_trial.xml", read), name)
  {
    var df := SelectFiles(walk, "metrics_per_trial.xml", read);
    if df.None? {
      return Err(NoTable);
    }
    if df.value.SessionTable? || df.value.rows == [] {
      return Err(NoSuchColumn);
    }
    if !AllNamed(df.value.rows) {
      return Err(NaMask);
    }
    var selected := Seqs.Filter(df.value.rows, NameQuery(name));
    Seqs.FilterFirst(df.value.rows, NameQuery(name));
    if selected == [] {
      return Err(NoMatchingRow);
    }
    var data := selected[0].data;
    if data.None? {
      return Err(NoDataAttribute);
    }
    result := Ok(Tokenise(data.value));
  }

  /** Lines 204-208: a record without a name makes the mask unusable;
      otherwise a result comes from the first record whose name contains
      `name`, and no record matches exactly when the selection is empty. */
  lemma ParameterFirstMatch(rows: seq<Record>, name: string)
    requires rows != []
    ensures ParameterTokens(Some(TidyTable(rows)), name) == Err(NaMask)
      <==> exists i :: 0 <= i < |rows| && rows[i].nameValue.None?
    ensures ParameterTokens(Some(TidyTable(rows)), name) == Err(NoMatchingRow)
      <==> ((forall i :: 0 <= i < |rows| ==> rows[i].nameValue.Some?)
            && forall i :: 0 <= i < |rows| ==> !FieldContains(rows[i].nameValue, name))
    ensures ParameterTokens(Some(TidyTable(rows)), name).Ok? ==>
      (forall i :: 0 <= i < |rows| ==> rows[i].nameValue.Some?) &&
      exists i :: 0 <= i < |rows| && FieldContains(rows[i].nameValue, name)
        && (forall j :: 0 <= j < i ==> !FieldContains(rows[j].nameValue, name))
        && rows[i].data.Some?
        && ParameterTokens(Some(TidyTable(rows)), name).value == Tokenise(rows[i].data.value)
  {
    var p := NameQuery(name);
    var r := Seqs.FirstIndex(rows, p);
    if r.Some? {
      var i := r.value;
      assert FieldContains(rows[i].nameValue, name);
      forall j | 0 <= j < i ensures !FieldContains(rows[j].nameValue, name) {
        assert !p(rows[j]);
      }
    } else {
      forall i | 0 <= i < |rows| ensures !FieldContains(rows[i].nameValue, name) {
        assert !p(rows[i]);
      }
    }
  }
}
