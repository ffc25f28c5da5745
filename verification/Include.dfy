/** Include expansion: `open_file` of tools/asm.py over a finite map from real paths to cleaned lines. */
module IncludeExpansion {
  import opened Defs

  type Path = string

  /** A line that is not blank after its comment is removed: plain text, an include directive with
      the real path it names, or a directive without a quoted path. */
  datatype Item = Text(text: string) | Include(path: Path) | BadInclude

  datatype SourceLine = SourceLine(file: Path, number: nat, text: string)

  datatype IncludeError = CannotOpen(path: Path) | BadDirective(file: Path, number: nat)

  type Files = map<Path, seq<Item>>

  /** The lines or the error, and the set of files included by then. */
  datatype Expansion = Expansion(lines: Result<seq<SourceLine>, IncludeError>, included: set<Path>)

  function After(first: seq<SourceLine>, rest: Expansion): Expansion
  {
    if rest.lines.Err? then rest else rest.(lines := Ok(first + rest.lines.value))
  }

  function Expand(files: Files, path: Path, included: set<Path>): (r: Expansion)
    ensures included <= r.included
    decreases |files.Keys - included|, 0, 0
  {
    if path in included then Expansion(Ok([]), included)
    else if path !in files then Expansion(Err(CannotOpen(path)), included + {path})
    else
      Shrinks(files.Keys, included, path);
      ExpandItems(files, path, 0, included + {path})
  }

  /** The items of a file from index `i` on. */
  function ExpandItems(files: Files, path: Path, i: nat, included: set<Path>): (r: Expansion)
    requires path in files && path in included && i <= |files[path]|
    ensures included <= r.included
    decreases |files.Keys - included|, 1, |files[path]| - i
  {
    if i == |files[path]| then Expansion(Ok([]), included)
    else match files[path][i]
      case Text(text) => After([SourceLine(path, i, text)], ExpandItems(files, path, i + 1, included))
      case BadInclude => Expansion(Err(BadDirective(path, i)), included)
      case Include(inner) =>
        var r := Expand(files, inner, included);
        if r.lines.Err? then r
        else
          Grows(files.Keys, included, r.included);
          After(r.lines.value, ExpandItems(files, path, i + 1, r.included))
  }

  lemma Shrinks(keys: set<Path>, included: set<Path>, path: Path)
    requires path in keys && path !in included
    ensures |keys - (included + {path})| < |keys - included|
  {
    assert keys - included == (keys - (included + {path})) + {path};
  }

  lemma Grows(keys: set<Path>, a: set<Path>, b: set<Path>)
    requires a <= b
    ensures |keys - b| <= |keys - a|
  {
    assert keys - a == (keys - b) + (keys * (b - a));
  }

  // ---- Which lines come out

  /** The lines of one file, in order. */
  function LinesOf(lines: seq<SourceLine>, file: Path): seq<SourceLine>
  {
    if lines == [] then []
    else (if lines[0].file == file then [lines[0]] else []) + LinesOf(lines[1..], file)
  }

  /** The non-include lines of a file from index `i` on. */
  function OwnLines(items: seq<Item>, file: Path, i: nat): seq<SourceLine>
    requires i <= |items|
    decreases |items| - i
  {
    if i == |items| then []
    else (if items[i].Text? then [SourceLine(file, i, items[i].text)] else []) + OwnLines(items, file, i + 1)
  }

  lemma {:induction false} LinesOfAppend(a: seq<SourceLine>, b: seq<SourceLine>, file: Path)
    ensures LinesOf(a + b, file) == LinesOf(a, file) + LinesOf(b, file)
    decreases |a|
  {
    if a == [] {
      assert a + b == b;
    } else {
      var head := if a[0].file == file then [a[0]] else [];
      assert (a + b)[1..] == a[1..] + b && (a + b)[0] == a[0];
      LinesOfAppend(a[1..], b, file);
      assert head + (LinesOf(a[1..], file) + LinesOf(b, file)) == head + LinesOf(a[1..], file) + LinesOf(b, file);
    }
  }

  /** What a file newly included contributes. */
  function Contribution(files: Files, file: Path, before: set<Path>, after: set<Path>): seq<SourceLine>
  {
    if file in after && file !in before && file in files then OwnLines(files[file], file, 0) else []
  }

  /** Every file included on the way contributes its non-include lines exactly once and in order;
      files included before, and files not included, contribute nothing. */
  lemma {:induction false} Contributions(files: Files, path: Path, included: set<Path>, file: Path)
    requires Expand(files, path, included).lines.Ok?
    ensures var r := Expand(files, path, included);
      LinesOf(r.lines.value, file) == Contribution(files, file, included, r.included)
    ensures path in Expand(files, path, included).included
    ensures Expand(files, path, included).included <= included + files.Keys
    decreases |files.Keys - included|, 0, 0
  {
    if path !in included {
      Shrinks(files.Keys, included, path);
      ItemContributions(files, path, 0, included + {path}, file);
    }
  }

  lemma {:induction false} ItemContributions(files: Files, path: Path, i: nat, included: set<Path>, file: Path)
    requires path in files && path in included && i <= |files[path]|
    requires ExpandItems(files, path, i, included).lines.Ok?
    ensures var r := ExpandItems(files, path, i, included);
      LinesOf(r.lines.value, file) ==
        if file == path then OwnLines(files[path], path, i) else Contribution(files, file, included, r.included)
    ensures ExpandItems(files, path, i, included).included <= included + files.Keys
    decreases |files.Keys - included|, 1, |files[path]| - i
  {
    if i < |files[path]| {
      match files[path][i]
      case BadInclude =>
      case Text(text) =>
        ItemContributions(files, path, i + 1, included, file);
        var line := SourceLine(path, i, text);
        LinesOfAppend([line], ExpandItems(files, path, i + 1, included).lines.value, file);
        assert LinesOf([line], file) == if file == path then [line] else [];
      case Include(inner) =>
        var r := Expand(files, inner, included);
        Contributions(files, inner, included, file);
        Grows(files.Keys, included, r.included);
        ItemContributions(files, path, i + 1, r.included, file);
        LinesOfAppend(r.lines.value, ExpandItems(files, path, i + 1, r.included).lines.value, file);
    }
  }

  // ---- Which files are included

  predicate Includes(files: Files, a: Path, b: Path) { a in files && Include(b) in files[a] }

  /** A chain of include directives. */
  predicate Chain(files: Files, chain: seq<Path>)
  {
    chain != [] && forall i :: 0 <= i < |chain| - 1 ==> Includes(files, chain[i], chain[i + 1])
  }

  /** A chain of include directives leads from a to b through no file of `closed`. */
  ghost predicate Avoids(files: Files, a: Path, b: Path, closed: set<Path>)
  {
    exists chain :: Links(files, chain, a, b) && forall f :: f in chain ==> f !in closed
  }

  predicate Links(files: Files, chain: seq<Path>, a: Path, b: Path)
  {
    Chain(files, chain) && chain[0] == a && chain[|chain| - 1] == b
  }

  ghost predicate Reaches(files: Files, a: Path, b: Path) { Avoids(files, a, b, {}) }

  lemma AvoidsSelf(files: Files, a: Path, closed: set<Path>)
    ensures Avoids(files, a, a, closed) <==> a !in closed
  {
    if a !in closed { assert Links(files, [a], a, a); }
  }

  lemma AvoidsTrans(files: Files, a: Path, b: Path, c: Path, closed: set<Path>)
    requires Avoids(files, a, b, closed) && Avoids(files, b, c, closed)
    ensures Avoids(files, a, c, closed)
  {
    var x :| Links(files, x, a, b) && forall f :: f in x ==> f !in closed;
    var y :| Links(files, y, b, c) && forall f :: f in y ==> f !in closed;
    var both := x + y[1..];
    forall i | 0 <= i < |both| - 1 ensures Includes(files, both[i], both[i + 1]) {
      if i >= |x| - 1 { assert both[i] == y[i - |x| + 1] && both[i + 1] == y[i - |x| + 2]; }
    }
    assert Links(files, both, a, c);
  }

  lemma AvoidsVia(files: Files, a: Path, b: Path, c: Path, closed: set<Path>)
    requires Includes(files, a, b) && a !in closed && Avoids(files, b, c, closed)
    ensures Avoids(files, a, c, closed)
  {
    var x :| Links(files, x, b, c) && forall f :: f in x ==> f !in closed;
    assert x[0] !in closed;
    assert Links(files, [a, b], a, b);
    AvoidsTrans(files, a, b, c, closed);
  }

  lemma AvoidsLess(files: Files, a: Path, b: Path, less: set<Path>, more: set<Path>)
    requires Avoids(files, a, b, more) && less <= more
    ensures Avoids(files, a, b, less)
  {
    var chain :| Links(files, chain, a, b) && forall f :: f in chain ==> f !in more;
  }

  /** The directives of every file newly included are well formed and have been followed. */
  lemma {:induction false} Followed(files: Files, path: Path, included: set<Path>, f: Path, g: Path)
    requires Expand(files, path, included).lines.Ok?
    ensures var r := Expand(files, path, included).included;
      && (f in r && f !in included && Includes(files, f, g) ==> g in r)
      && (f in r && f !in included ==> f in files && BadInclude !in files[f])
    decreases |files.Keys - included|, 0, 0
  {
    if path !in included {
      Shrinks(files.Keys, included, path);
      ItemsFollowed(files, path, 0, included + {path}, f, g);
    }
  }

  lemma {:induction false} ItemsFollowed(files: Files, path: Path, i: nat, included: set<Path>, f: Path, g: Path)
    requires path in files && path in included && i <= |files[path]|
    requires ExpandItems(files, path, i, included).lines.Ok?
    ensures var r := ExpandItems(files, path, i, included).included;
      && (f in r && f !in included && Includes(files, f, g) ==> g in r)
      && (f in r && f !in included ==> f in files && BadInclude !in files[f])
      && (Include(g) in files[path][i..] ==> g in r)
      && BadInclude !in files[path][i..]
    decreases |files.Keys - included|, 1, |files[path]| - i
  {
    if i < |files[path]| {
      var item := files[path][i];
      assert files[path][i..] == [item] + files[path][i + 1..];
      match item
      case BadInclude =>
      case Text(_) => ItemsFollowed(files, path, i + 1, included, f, g);
      case Include(inner) =>
        var r := Expand(files, inner, included);
        Followed(files, inner, included, f, g);
        Contributions(files, inner, included, f);
        Grows(files.Keys, included, r.included);
        ItemsFollowed(files, path, i + 1, r.included, f, g);
    }
  }

  /** A newly included file is reached through newly included files only. */
  lemma {:induction false} OnlyAvoiding(files: Files, path: Path, included: set<Path>, f: Path)
    requires Expand(files, path, included).lines.Ok?
    requires f in Expand(files, path, included).included && f !in included
    ensures Avoids(files, path, f, included)
    decreases |files.Keys - included|, 0, 0
  {
    AvoidsSelf(files, path, included);
    if f != path {
      Shrinks(files.Keys, included, path);
      ItemsAvoiding(files, path, 0, included + {path}, f, included);
    }
  }

  lemma {:induction false} ItemsAvoiding(files: Files, path: Path, i: nat, seen: set<Path>, f: Path, closed: set<Path>)
    requires path in files && path in seen && i <= |files[path]| && closed <= seen && path !in closed
    requires ExpandItems(files, path, i, seen).lines.Ok?
    requires f in ExpandItems(files, path, i, seen).included && f !in seen
    ensures Avoids(files, path, f, closed)
    decreases |files.Keys - seen|, 1, |files[path]| - i
  {
    match files[path][i]
    case Text(_) => ItemsAvoiding(files, path, i + 1, seen, f, closed);
    case Include(inner) =>
      var r := Expand(files, inner, seen);
      Grows(files.Keys, seen, r.included);
      if f in r.included {
        OnlyAvoiding(files, inner, seen, f);
        AvoidsLess(files, inner, f, closed, seen);
        assert Includes(files, path, inner);
        AvoidsVia(files, path, inner, f, closed);
      } else {
        ItemsAvoiding(files, path, i + 1, r.included, f, closed);
      }
  }

  lemma {:induction false} ChainIncluded(files: Files, path: Path, included: set<Path>, chain: seq<Path>)
    requires Expand(files, path, included).lines.Ok? && Chain(files, chain) && chain[0] == path
    requires forall f :: f in chain ==> f !in included
    ensures chain[|chain| - 1] in Expand(files, path, included).included
    decreases |chain|
  {
    var last := |chain| - 1;
    if last == 0 {
      Contributions(files, path, included, path);
    } else {
      ChainIncluded(files, path, included, chain[..last]);
      assert Includes(files, chain[last - 1], chain[last]) && chain[last - 1] in chain;
      Followed(files, path, included, chain[last - 1], chain[last]);
    }
  }

  /** Exactly the files reached by chains that avoid the files included before are newly included. */
  lemma IncludedIff(files: Files, path: Path, included: set<Path>, f: Path)
    requires Expand(files, path, included).lines.Ok?
    ensures f in Expand(files, path, included).included <==> f in included || Avoids(files, path, f, included)
  {
    if f in Expand(files, path, included).included && f !in included {
      OnlyAvoiding(files, path, included, f);
    } else if Avoids(files, path, f, included) {
      var chain :| Links(files, chain, path, f) && forall x :: x in chain ==> x !in included;
      ChainIncluded(files, path, included, chain);
    }
  }

  /** On any finite include graph, cyclic or not, a successful expansion includes exactly the files
      reachable from the main file, each one once, with all its other lines in order. */
  lemma ExpandsReachableOnce(files: Files, path: Path, file: Path)
    requires Expand(files, path, {}).lines.Ok?
    ensures var r := Expand(files, path, {});
      && (file in r.included <==> Reaches(files, path, file))
      && (Reaches(files, path, file) ==> file in files)
      && LinesOf(r.lines.value, file) == if Reaches(files, path, file) then OwnLines(files[file], file, 0) else []
  {
    Contributions(files, path, {}, file);
    Followed(files, path, {}, file, file);
    IncludedIff(files, path, {}, file);
  }

  predicate Readable(files: Files, f: Path) { f in files && BadInclude !in files[f] }

  /** A failed expansion met a reachable file that does not exist or has a bad directive. */
  lemma {:induction false} Fails(files: Files, path: Path, included: set<Path>)
    requires Expand(files, path, included).lines.Err?
    ensures exists f :: Reaches(files, path, f) && !Readable(files, f)
    decreases |files.Keys - included|, 0, 0
  {
    AvoidsSelf(files, path, {});
    assert Reaches(files, path, path);
    if path in files {
      Shrinks(files.Keys, included, path);
      ItemsFail(files, path, 0, included + {path});
    }
  }

  lemma {:induction false} ItemsFail(files: Files, path: Path, i: nat, included: set<Path>)
    requires path in files && path in included && i <= |files[path]|
    requires ExpandItems(files, path, i, included).lines.Err?
    ensures exists f :: Reaches(files, path, f) && !Readable(files, f)
    decreases |files.Keys - included|, 1, |files[path]| - i
  {
    AvoidsSelf(files, path, {});
    match files[path][i]
    case BadInclude => assert !Readable(files, path);
    case Text(_) => ItemsFail(files, path, i + 1, included);
    case Include(inner) =>
      var r := Expand(files, inner, included);
      if r.lines.Err? {
        Fails(files, inner, included);
        var f :| Reaches(files, inner, f) && !Readable(files, f);
        assert Includes(files, path, inner);
        AvoidsVia(files, path, inner, f, {});
      } else {
        Grows(files.Keys, included, r.included);
        ItemsFail(files, path, i + 1, r.included);
      }
  }

  /** Expansion succeeds exactly when every reachable file exists and has only proper directives. */
  lemma SucceedsIff(files: Files, path: Path)
    ensures Expand(files, path, {}).lines.Ok? <==> forall f :: Reaches(files, path, f) ==> Readable(files, f)
  {
    if Expand(files, path, {}).lines.Ok? {
      forall f | Reaches(files, path, f) ensures Readable(files, f) {
        ExpandsReachableOnce(files, path, f);
        Followed(files, path, {}, f, f);
      }
    } else {
      Fails(files, path, {});
    }
  }

  // ---- Where they come out

  /** The non-include lines of a file before index `i`. */
  function OwnLinesBefore(items: seq<Item>, file: Path, i: nat): seq<SourceLine>
    requires i <= |items|
  {
    if i == 0 then []
    else OwnLinesBefore(items, file, i - 1) + (if items[i - 1].Text? then [SourceLine(file, i - 1, items[i - 1].text)] else [])
  }

  /** The files included before item `i` of a newly included file is expanded. */
  function SeenBefore(files: Files, path: Path, included: set<Path>, i: nat): (r: set<Path>)
    requires path in files && i <= |files[path]|
    ensures included + {path} <= r
  {
    if i == 0 then included + {path}
    else
      var seen := SeenBefore(files, path, included, i - 1);
      var item := files[path][i - 1];
      if item.Include? then Expand(files, item.path, seen).included else seen
  }

  /** What item `i` is replaced by: a text line by itself, a directive by the expansion of its file. */
  function Piece(files: Files, path: Path, included: set<Path>, i: nat): seq<SourceLine>
    requires path in files && i < |files[path]|
  {
    match files[path][i]
    case Text(text) => [SourceLine(path, i, text)]
    case BadInclude => []
    case Include(inner) =>
      var r := Expand(files, inner, SeenBefore(files, path, included, i));
      if r.lines.Ok? then r.lines.value else []
  }

  /** The pieces of the items before `i`, in order. */
  function Pieces(files: Files, path: Path, included: set<Path>, i: nat): seq<SourceLine>
    requires path in files && i <= |files[path]|
  {
    if i == 0 then [] else Pieces(files, path, included, i - 1) + Piece(files, path, included, i - 1)
  }

  /** Expansion up to item `i` has put out the pieces before it and seen the files before it. */
  lemma {:induction false} Cut(files: Files, path: Path, included: set<Path>, i: nat)
    requires path in files && path !in included && i <= |files[path]|
    requires Expand(files, path, included).lines.Ok?
    ensures Expand(files, path, included) ==
      After(Pieces(files, path, included, i), ExpandItems(files, path, i, SeenBefore(files, path, included, i)))
    ensures i < |files[path]| && files[path][i].Include? ==>
      Expand(files, files[path][i].path, SeenBefore(files, path, included, i)).lines.Ok?
    decreases i
  {
    hide Expand;
    if i == 0 {
      CutNothing(files, path, included);
    } else {
      Cut(files, path, included, i - 1);
      CutItem(files, path, included, i - 1);
    }
  }

  lemma CutNothing(files: Files, path: Path, included: set<Path>)
    requires path in files && path !in included
    ensures Expand(files, path, included) == After([], ExpandItems(files, path, 0, included + {path}))
  {
    AfterNothing(ExpandItems(files, path, 0, included + {path}));
  }

  /** The cut moves past one item. */
  lemma CutItem(files: Files, path: Path, included: set<Path>, i: nat)
    requires path in files && i < |files[path]|
    requires ExpandItems(files, path, i, SeenBefore(files, path, included, i)).lines.Ok?
    ensures After(Pieces(files, path, included, i), ExpandItems(files, path, i, SeenBefore(files, path, included, i)))
         == After(Pieces(files, path, included, i + 1), ExpandItems(files, path, i + 1, SeenBefore(files, path, included, i + 1)))
  {
    hide Expand;
    var before, rest := Pieces(files, path, included, i), ExpandItems(files, path, i + 1, SeenBefore(files, path, included, i + 1));
    AfterAfter(before, Piece(files, path, included, i), rest);
    if files[path][i].Text? { AfterNothing(rest); }
  }

  /** A newly included file expands to the pieces of its items: every directive is replaced in place by one
      contiguous block, the expansion of the file it names with the files seen by then. Applied to that
      block in turn, this fixes the place of every line at every depth. */
  lemma ExpandIsPieces(files: Files, path: Path, included: set<Path>)
    requires path in files && path !in included
    requires Expand(files, path, included).lines.Ok?
    ensures Expand(files, path, included).lines.value == Pieces(files, path, included, |files[path]|)
    ensures Expand(files, path, included).included == SeenBefore(files, path, included, |files[path]|)
    ensures forall i :: 0 <= i < |files[path]| && files[path][i].Include? ==>
      Expand(files, files[path][i].path, SeenBefore(files, path, included, i)).lines.Ok?
  {
    var n := |files[path]|;
    Cut(files, path, included, n);
    assert Pieces(files, path, included, n) + [] == Pieces(files, path, included, n);
    forall i | 0 <= i < n && files[path][i].Include?
      ensures Expand(files, files[path][i].path, SeenBefore(files, path, included, i)).lines.Ok?
    {
      Cut(files, path, included, i);
    }
  }

  /** Depth first: the files seen before item `i` are those included before, the file itself, and all that
      its earlier directives reach, directly or not, by chains that avoid these. */
  ghost predicate OpenedBefore(files: Files, path: Path, included: set<Path>, i: nat, f: Path)
    requires path in files && i <= |files[path]|
  {
    f in included + {path} || exists g :: Include(g) in files[path][..i] && Avoids(files, g, f, included + {path})
  }

  lemma {:induction false} SeenIff(files: Files, path: Path, included: set<Path>, i: nat, f: Path)
    requires path in files && path !in included && i <= |files[path]|
    requires Expand(files, path, included).lines.Ok?
    ensures f in SeenBefore(files, path, included, i) <==> OpenedBefore(files, path, included, i, f)
    decreases i
  {
    if i > 0 {
      var items, closed, seen := files[path], included + {path}, SeenBefore(files, path, included, i - 1);
      assert items[..i] == items[..i - 1] + [items[i - 1]];
      SeenIff(files, path, included, i - 1, f);
      if items[i - 1].Include? {
        var inner := items[i - 1].path;
        Cut(files, path, included, i - 1);
        IncludedIff(files, inner, seen, f);
        if Avoids(files, inner, f, seen) {
          AvoidsLess(files, inner, f, closed, seen);
        } else if Avoids(files, inner, f, closed) {
          var c := Blocked(files, inner, f, seen, closed);
          SeenIff(files, path, included, i - 1, c);
          var g :| Include(g) in items[..i - 1] && Avoids(files, g, c, closed);
          AvoidsTrans(files, g, c, f, closed);
        }
      }
    }
  }

  /** A chain that avoids `closed` but none that avoids `seen`: the former passes through a file of `seen`. */
  lemma Blocked(files: Files, a: Path, b: Path, seen: set<Path>, closed: set<Path>) returns (c: Path)
    requires Avoids(files, a, b, closed) && !Avoids(files, a, b, seen)
    ensures c in seen && c !in closed && Avoids(files, c, b, closed)
  {
    var chain :| Links(files, chain, a, b) && forall f :: f in chain ==> f !in closed;
    c :| c in chain && c in seen;
    var i :| 0 <= i < |chain| && chain[i] == c;
    var rest := chain[i..];
    assert forall k :: 0 <= k < |rest| ==> rest[k] == chain[i + k];
    assert Links(files, rest, c, b);
  }

  /** The pieces before item `i` hold the file's own lines before `i` and all lines of the files opened
      by then; the pieces from `i` on hold its own lines from `i` on and all lines of the others. */
  lemma InPlace(files: Files, path: Path, included: set<Path>, i: nat, f: Path)
    requires path in files && path !in included && i <= |files[path]|
    requires Expand(files, path, included).lines.Ok?
    ensures var head, all := Pieces(files, path, included, i), Expand(files, path, included).lines.value;
      && head <= all
      && LinesOf(head, f) + LinesOf(all[|head|..], f) == LinesOf(all, f)
      && (f == path ==>
            LinesOf(head, f) == OwnLinesBefore(files[path], path, i) && LinesOf(all[|head|..], f) == OwnLines(files[path], path, i))
      && (f != path && OpenedBefore(files, path, included, i, f) ==> LinesOf(head, f) == LinesOf(all, f))
      && (f != path && OpenedBefore(files, path, included, i, f) ==> LinesOf(all[|head|..], f) == [])
      && (f != path && !OpenedBefore(files, path, included, i, f) ==> LinesOf(head, f) == [])
  {
    var head, all := Pieces(files, path, included, i), Expand(files, path, included).lines.value;
    var seen := SeenBefore(files, path, included, i);
    Cut(files, path, included, i);
    var tail := ExpandItems(files, path, i, seen).lines.value;
    assert all == head + tail && all[|head|..] == tail;
    LinesOfAppend(head, tail, f);
    ItemContributions(files, path, i, seen, f);
    SeenIff(files, path, included, i, f);
    Contributions(files, path, included, f);
    if f == path {
      OwnSplit(files[path], path, i);
      SameHead(LinesOf(head, f), OwnLinesBefore(files[path], path, i), LinesOf(tail, f));
    } else if f in seen {
      assert LinesOf(head, f) + [] == LinesOf(head, f);
    } else {
      ExpandIsPieces(files, path, included);
      assert LinesOf(tail, f) == LinesOf(all, f);
      SameHead(LinesOf(head, f), [], LinesOf(tail, f));
    }
  }

  lemma SameHead(a: seq<SourceLine>, b: seq<SourceLine>, c: seq<SourceLine>)
    requires a + c == b + c
    ensures a == b
  {
    assert |a + c| == |a| + |c| && |b + c| == |b| + |c|;
    assert a == (a + c)[..|a|] && b == (b + c)[..|b|];
  }

  lemma Associates(a: seq<SourceLine>, b: seq<SourceLine>, c: seq<SourceLine>)
    ensures a + (b + c) == a + b + c
  {
  }

  lemma {:induction false} OwnSplit(items: seq<Item>, file: Path, i: nat)
    requires i <= |items|
    ensures OwnLinesBefore(items, file, i) + OwnLines(items, file, i) == OwnLines(items, file, 0)
    decreases i
  {
    if i > 0 {
      OwnSplit(items, file, i - 1);
      var item := if items[i - 1].Text? then [SourceLine(file, i - 1, items[i - 1].text)] else [];
      var before, after := OwnLinesBefore(items, file, i - 1), OwnLines(items, file, i);
      assert OwnLinesBefore(items, file, i) == before + item && OwnLines(items, file, i - 1) == item + after;
      hide OwnLinesBefore, OwnLines;
      Associates(before, item, after);
    }
  }

  /** InPlace for a given rest of the expansion. */
  lemma TailSide(files: Files, path: Path, included: set<Path>, i: nat, tail: seq<SourceLine>, f: Path)
    requires path in files && path !in included && i <= |files[path]|
    requires Expand(files, path, included).lines.Ok?
    requires Expand(files, path, included).lines.value == Pieces(files, path, included, i) + tail
    ensures f == path ==> LinesOf(tail, f) == OwnLines(files[path], path, i)
    ensures f != path && f in SeenBefore(files, path, included, i) ==> LinesOf(tail, f) == []
  {
    hide Expand, Pieces, SeenBefore, LinesOf, OwnLines, OwnLinesBefore, OpenedBefore;
    var head, all := Pieces(files, path, included, i), Expand(files, path, included).lines.value;
    assert all[|head|..] == tail;
    SeenIff(files, path, included, i, f);
    InPlace(files, path, included, i, f);
  }

  /** An include directive becomes one contiguous block: the expansion of the file it names with exactly
      the files seen by then, which is empty if that is one of them. */
  lemma Block(files: Files, path: Path, included: set<Path>, i: nat) returns (tail: seq<SourceLine>)
    requires path in files && path !in included && i < |files[path]| && files[path][i].Include?
    requires Expand(files, path, included).lines.Ok?
    ensures var seen := SeenBefore(files, path, included, i);
      var block := Expand(files, files[path][i].path, seen);
      && (forall f :: f in seen <==> OpenedBefore(files, path, included, i, f))
      && block.lines.Ok?
      && Expand(files, path, included).lines.value == Pieces(files, path, included, i) + block.lines.value + tail
      && (forall f :: f in seen ==> LinesOf(block.lines.value, f) == [])
      && (forall f :: f in block.included && f != path ==> LinesOf(tail, f) == [])
    ensures LinesOf(Pieces(files, path, included, i), path) == OwnLinesBefore(files[path], path, i)
    ensures LinesOf(tail, path) == OwnLines(files[path], path, i + 1)
  {
    hide Expand, ExpandItems, Pieces, SeenBefore, LinesOf, OwnLines, OwnLinesBefore, OpenedBefore;
    var seen, inner := SeenBefore(files, path, included, i), files[path][i].path;
    var all, more := Expand(files, path, included).lines.value, Pieces(files, path, included, i + 1);
    BlockCut(files, path, included, i);
    InPlace(files, path, included, i, path);
    InPlace(files, path, included, i + 1, path);
    tail := all[|more|..];
    assert all == more + tail;
    TailSide(files, path, included, i + 1, tail, path);
    forall f ensures f in seen <==> OpenedBefore(files, path, included, i, f) { SeenIff(files, path, included, i, f); }
    forall f | f in seen ensures LinesOf(Expand(files, inner, seen).lines.value, f) == [] {
      Contributions(files, inner, seen, f);
    }
    forall f | f in Expand(files, inner, seen).included && f != path ensures LinesOf(tail, f) == [] {
      TailSide(files, path, included, i + 1, tail, f);
    }
  }

  lemma BlockCut(files: Files, path: Path, included: set<Path>, i: nat)
    requires path in files && path !in included && i < |files[path]| && files[path][i].Include?
    requires Expand(files, path, included).lines.Ok?
    ensures var block := Expand(files, files[path][i].path, SeenBefore(files, path, included, i));
      && block.lines.Ok?
      && Pieces(files, path, included, i + 1) == Pieces(files, path, included, i) + block.lines.value
      && SeenBefore(files, path, included, i + 1) == block.included
  {
    hide Expand;
    Cut(files, path, included, i);
  }

  /** A text line is output where it stands. */
  lemma Place(files: Files, path: Path, included: set<Path>, i: nat) returns (tail: seq<SourceLine>)
    requires path in files && path !in included && i < |files[path]| && files[path][i].Text?
    requires Expand(files, path, included).lines.Ok?
    ensures Expand(files, path, included).lines.value ==
      Pieces(files, path, included, i) + [SourceLine(path, i, files[path][i].text)] + tail
    ensures LinesOf(Pieces(files, path, included, i), path) == OwnLinesBefore(files[path], path, i)
    ensures LinesOf(tail, path) == OwnLines(files[path], path, i + 1)
  {
    var all, more := Expand(files, path, included).lines.value, Pieces(files, path, included, i + 1);
    InPlace(files, path, included, i, path);
    InPlace(files, path, included, i + 1, path);
    tail := all[|more|..];
    assert more == Pieces(files, path, included, i) + [SourceLine(path, i, files[path][i].text)] && all == more + tail;
  }

  /** The order of two files: all lines of a file opened before item `i` come before all lines of one that is not. */
  lemma Order(files: Files, path: Path, included: set<Path>, i: nat, f: Path, g: Path, x: nat, y: nat)
    requires path in files && path !in included && i <= |files[path]| && f != path && g != path
    requires Expand(files, path, included).lines.Ok?
    requires OpenedBefore(files, path, included, i, f) && !OpenedBefore(files, path, included, i, g)
    requires var all := Expand(files, path, included).lines.value;
      x < |all| && y < |all| && all[x].file == f && all[y].file == g
    ensures x < y
  {
    var head, all := Pieces(files, path, included, i), Expand(files, path, included).lines.value;
    InPlace(files, path, included, i, f);
    InPlace(files, path, included, i, g);
    if x >= |head| { LineIn(all[|head|..], x - |head|); }
    if y < |head| { LineIn(head, y); }
  }

  lemma {:induction false} LineIn(lines: seq<SourceLine>, x: nat)
    requires x < |lines|
    ensures LinesOf(lines, lines[x].file) != []
    decreases |lines|
  {
    if x > 0 { LineIn(lines[1..], x - 1); }
  }

  /** The item whose expansion includes a file first. */
  lemma {:induction false} FirstItem(files: Files, path: Path, included: set<Path>, n: nat, g: Path) returns (i: nat)
    requires path in files && n <= |files[path]|
    requires g in SeenBefore(files, path, included, n) && g !in included + {path}
    ensures i < n && files[path][i].Include? && g !in SeenBefore(files, path, included, i)
    ensures g in Expand(files, files[path][i].path, SeenBefore(files, path, included, i)).included
    decreases n
  {
    if g in SeenBefore(files, path, included, n - 1) {
      i := FirstItem(files, path, included, n - 1, g);
    } else {
      i := n - 1;
    }
  }

  lemma Opened(files: Files, path: Path, included: set<Path>, g: Path)
    requires Expand(files, path, included).lines.Ok? && g in Expand(files, path, included).included && g !in included
    ensures path !in included && path in files
  {
  }

  /** At any depth, a newly included file and all that is first reached through it are one contiguous block
      of the whole expansion: so the order inside every file is the order of the output. */
  lemma {:induction false} Subtree(files: Files, path: Path, included: set<Path>, g: Path)
    returns (head: seq<SourceLine>, closed: set<Path>, tail: seq<SourceLine>)
    requires Expand(files, path, included).lines.Ok?
    requires g in Expand(files, path, included).included && g !in included
    ensures included <= closed && g !in closed && (forall f :: f in closed && f !in included ==> Avoids(files, path, f, included))
    ensures Expand(files, g, closed).lines.Ok?
    ensures Expand(files, path, included).lines.value == head + Expand(files, g, closed).lines.value + tail
    decreases |files.Keys - included|
  {
    Opened(files, path, included, g);
    hide Expand, ExpandItems, Pieces, SeenBefore, LinesOf, Avoids, OpenedBefore, OwnLines, OwnLinesBefore;
    if g == path {
      head, closed, tail := [], included, [];
      assert [] + Expand(files, g, closed).lines.value + [] == Expand(files, g, closed).lines.value;
    } else {
      ExpandIsPieces(files, path, included);
      var i := FirstItem(files, path, included, |files[path]|, g);
      var inner, seen := files[path][i].path, SeenBefore(files, path, included, i);
      var after := Block(files, path, included, i);
      Shrinks(files.Keys, included, path);
      Grows(files.Keys, included + {path}, seen);
      var before, rest;
      before, closed, rest := Subtree(files, inner, seen, g);
      head, tail := Pieces(files, path, included, i) + before, rest + after;
      Nest(Pieces(files, path, included, i), before, Expand(files, g, closed).lines.value, rest, after);
      forall f | f in closed && f !in included ensures Avoids(files, path, f, included) {
        ReachedInside(files, path, included, i, f);
      }
    }
  }

  lemma Nest(a: seq<SourceLine>, b: seq<SourceLine>, c: seq<SourceLine>, d: seq<SourceLine>, e: seq<SourceLine>)
    ensures a + (b + c + d) + e == a + b + c + (d + e)
  {
  }

  lemma ReachedInside(files: Files, path: Path, included: set<Path>, i: nat, f: Path)
    requires path in files && path !in included && i < |files[path]| && files[path][i].Include? && f !in included
    requires Expand(files, path, included).lines.Ok?
    requires f in SeenBefore(files, path, included, i) ||
      Avoids(files, files[path][i].path, f, SeenBefore(files, path, included, i))
    ensures Avoids(files, path, f, included)
  {
    AvoidsSelf(files, path, included);
    SeenIff(files, path, included, i, f);
    if f != path {
      var g := if f in SeenBefore(files, path, included, i)
        then (var g :| Include(g) in files[path][..i] && Avoids(files, g, f, included + {path}); g) else files[path][i].path;
      var more := if f in SeenBefore(files, path, included, i) then included + {path} else SeenBefore(files, path, included, i);
      AvoidsLess(files, g, f, included, more);
      assert Includes(files, path, g);
      AvoidsVia(files, path, g, f, included);
    }
  }

  // ---- The recursive reader

  class Reader {
    const files: Files
    var included: set<Path>

    constructor (files: Files)
      ensures this.files == files && included == {}
    {
      this.files := files;
      included := {};
    }

    method OpenFile(path: Path) returns (lines: Result<seq<SourceLine>, IncludeError>)
      modifies this
      ensures Expansion(lines, included) == Expand(files, path, old(included))
      decreases |files.Keys - included|
    {
      if path in included { return Ok([]); }
      ghost var before := included;
      included := included + {path};
      if path !in files { return Err(CannotOpen(path)); }
      Shrinks(files.Keys, before, path);
      var items := files[path];
      var clean: seq<SourceLine> := [];
      var i := 0;
      AfterNothing(ExpandItems(files, path, 0, included));
      while i < |items|
        invariant 0 <= i <= |items|
        invariant before + {path} <= included
        invariant Expand(files, path, before) == After(clean, ExpandItems(files, path, i, included))
        decreases |items| - i
      {
        match items[i] {
          case Text(text) =>
            AfterAfter(clean, [SourceLine(path, i, text)], ExpandItems(files, path, i + 1, included));
            clean := clean + [SourceLine(path, i, text)];
          case BadInclude =>
            return Err(BadDirective(path, i));
          case Include(inner) =>
            Grows(files.Keys, before + {path}, included);
            var more := OpenFile(inner);
            if more.Err? { return more; }
            AfterAfter(clean, more.value, ExpandItems(files, path, i + 1, included));
            clean := clean + more.value;
        }
        i := i + 1;
      }
      assert clean + [] == clean;
      return Ok(clean);
    }
  }

  lemma AfterNothing(rest: Expansion)
    ensures After([], rest) == rest
  {
    if rest.lines.Ok? { assert [] + rest.lines.value == rest.lines.value; }
  }

  lemma AfterAfter(a: seq<SourceLine>, b: seq<SourceLine>, rest: Expansion)
    ensures After(a, After(b, rest)) == After(a + b, rest)
  {
    if rest.lines.Ok? { assert a + (b + rest.lines.value) == a + b + rest.lines.value; }
  }
}
