/** The load-order sort of the ini importer and the relocation of Tribunal that follows it. */
module LoadOrder {
  import opened Sorting

  datatype File = File(name: string, dependencies: seq<string>)

  function Names(files: seq<File>): seq<string> {
    seq(|files|, i requires 0 <= i < |files| => files[i].name)
  }

  /** std::find_if by exact name: the first match, or the end. */
  function Find(source: seq<File>, element: string): (i: nat)
    ensures i <= |source| && (i < |source| <==> element in Names(source))
    ensures i < |source| ==> source[i].name == element
    ensures forall j :: 0 <= j < i ==> source[j].name != element
  {
    if source == [] then 0
    else if source[0].name == element then assert Names(source)[0] == element; 0
    else
      assert forall j :: 0 < j < |source| ==> Names(source)[j] == Names(source[1..])[j - 1];
      assert forall j :: 0 <= j < |source| - 1 ==> Names(source)[j + 1] == Names(source[1..])[j];
      1 + Find(source[1..], element)
  }

  // ----- dependency, independently of any order ---------------------------------------------------

  predicate DependsOn(all: seq<File>, a: string, b: string) {
    exists f <- all :: f.name == a && b in f.dependencies
  }

  ghost predicate Chain(all: seq<File>, p: seq<string>) {
    |p| >= 2 && forall i :: 0 < i < |p| ==> DependsOn(all, p[i - 1], p[i])
  }

  /** `a` transitively depends on `b`, by at least one step. */
  ghost predicate Reaches(all: seq<File>, a: string, b: string) {
    exists p :: Chain(all, p) && p[0] == a && p[|p| - 1] == b
  }

  predicate UniqueNames(all: seq<File>) {
    forall i, j :: 0 <= i < j < |all| ==> all[i].name != all[j].name
  }

  ghost predicate Acyclic(all: seq<File>) {
    forall a :: !Reaches(all, a, a)
  }

  /** Every known dependency of a sorted file is sorted before it, unless it depends on the file in turn. */
  ghost predicate SortedUpToCycles(all: seq<File>, result: seq<string>) {
    forall i, d | 0 <= i < |result| && DependsOn(all, result[i], d) && d in Names(all)
      :: d in result[..i] || Reaches(all, d, result[i])
  }

  /** No file comes before one it depends on. */
  predicate InOrder(all: seq<File>, order: seq<string>) {
    forall i, j :: 0 <= i < j < |order| ==> !DependsOn(all, order[i], order[j])
  }

  // ----- the worklist invariant -------------------------------------------------------------------

  /** `stack` holds the files that have been taken from `source` and not yet pushed to `result`. */
  ghost predicate Worklist(all: seq<File>, source: seq<File>, stack: seq<File>, result: seq<string>) {
    && (forall f :: f in source || f in stack ==> f in all)
    && Stacked(stack)
    && Partition(all, source, stack, result)
    && (UniqueNames(all) ==> SortedUpToCycles(all, result))
  }

  predicate Stacked(stack: seq<File>) {
    forall i :: 0 < i < |stack| ==> stack[i].name in stack[i - 1].dependencies
  }

  predicate Partition(all: seq<File>, source: seq<File>, stack: seq<File>, result: seq<string>) {
    multiset(Names(source)) + multiset(Names(stack)) + multiset(result) == multiset(Names(all))
  }

  /** None of the dependencies is in the worklist. */
  predicate Free(dependencies: seq<string>, source: seq<File>) {
    forall d <- dependencies :: d !in Names(source)
  }

  predicate Fewer(source': seq<File>, source: seq<File>) {
    multiset(Names(source')) <= multiset(Names(source))
  }

  lemma FreeOneMore(dependencies: seq<string>, j: nat, source: seq<File>)
    requires j < |dependencies|
    ensures Free(dependencies[..j + 1], source) <==> Free(dependencies[..j], source) && dependencies[j] !in Names(source)
  {
    assert dependencies[..j + 1] == dependencies[..j] + [dependencies[j]];
  }

  lemma FreeOfFewer(dependencies: seq<string>, source': seq<File>, source: seq<File>)
    requires Free(dependencies, source) && Fewer(source', source)
    ensures Free(dependencies, source')
  {
    forall d <- dependencies
      ensures d !in Names(source')
    {
      assert d !in multiset(Names(source));
      assert d !in multiset(Names(source'));
    }
  }

  lemma NamesOf(s: seq<File>)
    ensures forall x :: x in Names(s) <==> exists f <- s :: f.name == x
  {
    forall x
      ensures x in Names(s) <==> exists f <- s :: f.name == x
    {
      if x in Names(s) {
        var i :| 0 <= i < |s| && Names(s)[i] == x;
        assert s[i] in s;
      }
      if f :| f in s && f.name == x {
        var i :| 0 <= i < |s| && s[i] == f;
        assert Names(s)[i] == x;
      }
    }
  }

  lemma UniqueCount(all: seq<File>, x: string)
    requires UniqueNames(all)
    ensures multiset(Names(all))[x] <= 1
  {
    if all != [] {
      var n := |all| - 1;
      UniqueCount(all[..n], x);
      assert Names(all) == Names(all[..n]) + [all[n].name];
      if x == all[n].name {
        assert x !in Names(all[..n]) by { NamesOf(all[..n]); }
      }
    }
  }

  lemma NamesWithout(s: seq<File>, i: nat)
    requires i < |s|
    ensures Names(Without(s, i)) == Without(Names(s), i)
  {}

  lemma MovedToStack(all: seq<File>, source: seq<File>, stack: seq<File>, result: seq<string>, i: nat)
    requires Worklist(all, source, stack, result) && i < |source|
    requires stack == [] || source[i].name in stack[|stack| - 1].dependencies
    ensures Worklist(all, Without(source, i), stack + [source[i]], result)
    ensures Fewer(Without(source, i), source)
  {
    hide SortedUpToCycles, UniqueNames, Stacked, Partition, Fewer;
    CountsMoved(all, source, stack, result, i);
    StackedOn(stack, source[i]);
    forall f | f in Without(source, i) || f in stack + [source[i]]
      ensures f in all
    {
      assert f in source || f in stack;
    }
  }

  lemma CountsMoved(all: seq<File>, source: seq<File>, stack: seq<File>, result: seq<string>, i: nat)
    requires Partition(all, source, stack, result) && i < |source|
    ensures Partition(all, Without(source, i), stack + [source[i]], result)
    ensures Fewer(Without(source, i), source)
  {
    NamesWithout(source, i);
    TakenCount(Names(source), i);
    assert Names(stack + [source[i]]) == Names(stack) + [source[i].name];
  }

  lemma StackedOn(stack: seq<File>, found: File)
    requires Stacked(stack) && (stack == [] || found.name in stack[|stack| - 1].dependencies)
    ensures Stacked(stack + [found])
  {}

  /** A file still on the stack depends transitively on the file above it. */
  lemma {:induction false} StackReaches(all: seq<File>, stack: seq<File>, i: nat)
    requires i + 1 < |stack| && Stacked(stack) && forall f <- stack :: f in all
    ensures Reaches(all, stack[i].name, stack[|stack| - 1].name)
  {
    var p := Names(stack[i..]);
    forall k | 0 < k < |p|
      ensures DependsOn(all, p[k - 1], p[k])
    {
      assert stack[i + k - 1] in all;
    }
    assert Chain(all, p);
  }

  /** Pushing the top of the stack once none of its dependencies is left in the worklist. */
  lemma Pushed(all: seq<File>, source: seq<File>, stack: seq<File>, found: File, result: seq<string>)
    requires Worklist(all, source, stack + [found], result)
    requires UniqueNames(all) ==> Free(found.dependencies, source)
    ensures Worklist(all, source, stack, result + [found.name])
  {
    assert Names(stack + [found]) == Names(stack) + [found.name];
    assert forall i :: 0 <= i < |stack| ==> (stack + [found])[i] == stack[i];
    assert Stacked(stack);
    if UniqueNames(all) {
      PushedInOrder(all, source, stack, found, result);
    }
  }

  lemma PushedInOrder(all: seq<File>, source: seq<File>, stack: seq<File>, found: File, result: seq<string>)
    requires Worklist(all, source, stack + [found], result) && UniqueNames(all)
    requires Free(found.dependencies, source)
    ensures SortedUpToCycles(all, result + [found.name])
  {
    hide Reaches;
    var pushed := result + [found.name];
    var open := stack + [found];
    assert open[|open| - 1] == found && found in open;
    forall i, d | 0 <= i < |pushed| && DependsOn(all, pushed[i], d) && d in Names(all)
      ensures d in pushed[..i] || Reaches(all, d, pushed[i])
    {
      if i < |result| {
        assert pushed[..i] == result[..i] && DependsOn(all, result[i], d);
      } else {
        assert pushed[..i] == result;
        OnlyFile(all, found);
        assert d in found.dependencies;
        assert d in multiset(Names(source)) + multiset(Names(open)) + multiset(result);
        if d in Names(open) {
          var k :| 0 <= k < |open| && Names(open)[k] == d;
          if k + 1 < |open| { StackReaches(all, open, k); } else { DirectReaches(all, d, d); }
        }
      }
    }
  }

  lemma DirectReaches(all: seq<File>, a: string, b: string)
    requires DependsOn(all, a, b)
    ensures Reaches(all, a, b)
  {
    assert Chain(all, [a, b]);
  }

  lemma OnlyFile(all: seq<File>, found: File)
    requires UniqueNames(all) && found in all
    ensures forall d :: DependsOn(all, found.name, d) <==> d in found.dependencies
  {}

  // ----- the sort ---------------------------------------------------------------------------------

  /** Take `element` out of the worklist, sort its dependencies, then push it. */
  method DependencySortStep(element: string, source: seq<File>, result: seq<string>,
                            ghost all: seq<File>, ghost stack: seq<File>)
    returns (source': seq<File>, result': seq<string>)
    requires Worklist(all, source, stack, result)
    requires stack == [] || element in stack[|stack| - 1].dependencies
    ensures Worklist(all, source', stack, result')
    ensures result <= result' && |source'| + |result'| == |source| + |result| && Fewer(source', source)
    ensures UniqueNames(all) ==> element !in Names(source')
    ensures element !in Names(source) ==> source' == source && result' == result
    ensures element in Names(source) ==> |result'| > |result| && result'[|result'| - 1] == element
    ensures element in Names(source) ==>
              var i := Find(source, element);
              if Free(source[i].dependencies, Without(source, i))
              then source' == Without(source, i) && result' == result + [element]
              else |result'| > |result| + 1
    decreases |source|
  {
    hide Worklist, UniqueNames, Names, Free, Fewer;
    source', result' := source, result;
    NoDependencies(source);
    var i := Find(source, element);
    if i == |source| { return; }
    var found := source[i];
    MovedToStack(all, source, stack, result, i);
    source' := Without(source, i);
    ghost var rest := source';
    NoDependencies(rest);
    for j := 0 to |found.dependencies|
      invariant Worklist(all, source', stack + [found], result')
      invariant result <= result' && |source'| + |result'| == |rest| + |result| && Fewer(source', source)
      invariant UniqueNames(all) ==> Free(found.dependencies[..j], source')
      invariant if Free(found.dependencies[..j], rest) then source' == rest && result' == result else |result'| > |result|
    {
      ghost var before := source';
      source', result' := DependencySortStep(found.dependencies[j], source', result', all, stack + [found]);
      FreeOneMore(found.dependencies, j, rest);
      FreeOneMore(found.dependencies, j, source');
      FewerThrough(source', before, source);
      if UniqueNames(all) { FreeOfFewer(found.dependencies[..j], source', before); }
    }
    assert found.dependencies[..|found.dependencies|] == found.dependencies;
    Pushed(all, source', stack, found, result');
    result' := result' + [found.name];
    if UniqueNames(all) { TakenOnce(all, source', stack, result', element); }
  }

  lemma NoDependencies(source: seq<File>)
    ensures Free([], source) && Fewer(source, source)
  {}

  lemma FewerThrough(a: seq<File>, b: seq<File>, c: seq<File>)
    requires Fewer(a, b) && Fewer(b, c)
    ensures Fewer(a, c)
  {}

  /** With unique names, a name that has been pushed is not in the worklist any more. */
  lemma TakenOnce(all: seq<File>, source: seq<File>, stack: seq<File>, result: seq<string>, x: string)
    requires Worklist(all, source, stack, result) && UniqueNames(all) && x in result
    ensures x !in Names(source) && multiset(result)[x] == 1
  {
    hide SortedUpToCycles;
    UniqueCount(all, x);
    assert multiset(result)[x] >= 1;
    assert multiset(Names(source))[x] == 0;
  }

  /** No file lists a dependency that comes later. */
  predicate AlreadyOrdered(all: seq<File>) {
    forall i :: 0 <= i < |all| ==> Free(all[i].dependencies, all[i + 1..])
  }

  /** Either everything has been kept in place so far, or something was out of order and has been moved. */
  ghost predicate KeptOrMoved(all: seq<File>, source: seq<File>, result: seq<string>) {
    && |source| + |result| == |all|
    && var k := |result|;
       if forall i :: 0 <= i < k ==> Free(all[i].dependencies, all[i + 1..])
       then source == all[k..] && result == Names(all)[..k]
       else UniqueNames(all) ==> result != Names(all)[..k]
  }

  lemma KeptOrMovedStep(all: seq<File>, source: seq<File>, result: seq<string>, source': seq<File>, result': seq<string>)
    requires KeptOrMoved(all, source, result) && source != []
    requires result <= result' && |source'| + |result'| == |source| + |result| && |result'| > |result|
    requires if Free(source[0].dependencies, source[1..]) then source' == source[1..] && result' == result + [source[0].name]
             else |result'| > |result| + 1 && result'[|result'| - 1] == source[0].name
    ensures KeptOrMoved(all, source', result')
  {
    hide Free;
    var k, k' := |result|, |result'|;
    assert result == result'[..k];
    assert Names(all)[..k] == Names(all)[..k'][..k];
    if forall i :: 0 <= i < k ==> Free(all[i].dependencies, all[i + 1..]) {
      assert all[k..][1..] == all[k + 1..];
      if !Free(all[k].dependencies, all[k + 1..]) && UniqueNames(all) {
        assert result'[k' - 1] != Names(all)[k' - 1];
      }
    }
  }

  method DependencySort(all: seq<File>) returns (result: seq<string>)
    ensures multiset(result) == multiset(Names(all))
    ensures UniqueNames(all) ==> SortedUpToCycles(all, result)
    ensures AlreadyOrdered(all) ==> result == Names(all)
    ensures UniqueNames(all) && result == Names(all) ==> AlreadyOrdered(all)
  {
    var source := all;
    result := [];
    while source != []
      invariant Worklist(all, source, [], result)
      invariant KeptOrMoved(all, source, result)
      decreases |source|
    {
      hide Worklist, KeptOrMoved, Free, SortedUpToCycles, UniqueNames, AlreadyOrdered;
      ghost var was, before := source, result;
      assert Names(source)[0] == source[0].name;
      assert Without(source, 0) == source[1..];
      source, result := DependencySortStep(source[0].name, source, result, all, []);
      KeptOrMovedStep(all, was, before, source, result);
    }
  }

  lemma AlreadyOrderedIsInOrder(all: seq<File>)
    requires UniqueNames(all)
    ensures AlreadyOrdered(all) <==> InOrder(all, Names(all))
  {
    hide DependsOn;
    var names := Names(all);
    forall i, j | 0 <= i < j < |all|
      ensures DependsOn(all, names[i], names[j]) <==> all[j].name in all[i].dependencies
    {
      OnlyFile(all, all[i]);
    }
    forall i | 0 <= i < |all|
      ensures Free(all[i].dependencies, all[i + 1..]) <==> forall j :: i < j < |all| ==> !DependsOn(all, names[i], names[j])
    {
      NamesOf(all[i + 1..]);
      if j :| i < j < |all| && DependsOn(all, names[i], names[j]) {
        assert all[i + 1..][j - i - 1] == all[j];
      }
      if d :| d in all[i].dependencies && d in Names(all[i + 1..]) {
        var m :| 0 <= m < |all[i + 1..]| && Names(all[i + 1..])[m] == d;
        assert DependsOn(all, names[i], names[i + 1 + m]);
      }
    }
  }

  /** Without cycles the sort is a topological order: no file precedes one it depends on. */
  lemma TopologicalWhenAcyclic(all: seq<File>, result: seq<string>)
    requires UniqueNames(all) && Acyclic(all)
    requires multiset(result) == multiset(Names(all)) && SortedUpToCycles(all, result)
    ensures InOrder(all, result)
  {
    hide Reaches;
    forall i, j | 0 <= i < j < |result|
      ensures !DependsOn(all, result[i], result[j])
    {
      if DependsOn(all, result[i], result[j]) {
        assert result[j] in multiset(result);
        assert result[j] in Names(all);
        if result[j] in result[..i] {
          var k :| 0 <= k < i && result[k] == result[j];
          UniqueCount(all, result[j]);
          OccursTwice(result, k, j);
          assert false;
        } else {
          ReachesOneMore(all, result[i], result[j], result[i]);
          assert false;
        }
      }
    }
  }

  lemma ReachesOneMore(all: seq<File>, a: string, b: string, c: string)
    requires DependsOn(all, a, b) && Reaches(all, b, c)
    ensures Reaches(all, a, c)
  {
    var p :| Chain(all, p) && p[0] == b && p[|p| - 1] == c;
    assert Chain(all, [a] + p);
  }

  // ----- Morrowind - Tribunal - Bloodmoon ---------------------------------------------------------

  function LowerChar(c: char): char {
    if 'A' <= c <= 'Z' then c + 32 as char else c
  }

  predicate CiEqual(a: string, b: string) {
    |a| == |b| && forall i :: 0 <= i < |a| ==> LowerChar(a[i]) == LowerChar(b[i])
  }

  /** The same character, or one Latin letter in the two cases. */
  ghost predicate SameLetter(c: char, d: char) {
    c == d || ('A' <= c <= 'Z' && d as int - c as int == 32) || ('A' <= d <= 'Z' && c as int - d as int == 32)
  }

  /** Two names are equal but for case exactly when they agree letter by letter; letters outside A to Z have no case. */
  lemma CiEqualMeaning(a: string, b: string)
    ensures CiEqual(a, b) <==> |a| == |b| && forall i :: 0 <= i < |a| ==> SameLetter(a[i], b[i])
  {
    hide SameLetter, LowerChar;
    forall c: char, d: char
      ensures LowerChar(c) == LowerChar(d) <==> SameLetter(c, d)
    {
      LowerMeaning(c, d);
    }
  }

  lemma LowerMeaning(c: char, d: char)
    ensures LowerChar(c) == LowerChar(d) <==> SameLetter(c, d)
  {
  }

  /** The first entry equal to `name` but for case, or the end. */
  function FindString(files: seq<string>, name: string): (i: nat)
    ensures i <= |files|
    ensures i < |files| ==> CiEqual(files[i], name)
    ensures forall j :: 0 <= j < i ==> !CiEqual(files[j], name)
  {
    if files == [] || CiEqual(files[0], name) then 0 else 1 + FindString(files[1..], name)
  }

  const MORROWIND := "Morrowind.esm"
  const TRIBUNAL := "Tribunal.esm"
  const BLOODMOON := "Bloodmoon.esm"

  predicate HasAllThree(files: seq<string>) {
    && FindString(files, MORROWIND) < |files|
    && FindString(files, TRIBUNAL) < |files|
    && FindString(files, BLOODMOON) < |files|
  }

  lemma DifferentFiles(f: string)
    ensures !(CiEqual(f, TRIBUNAL) && CiEqual(f, BLOODMOON))
  {
    assert LowerChar(TRIBUNAL[0]) != LowerChar(BLOODMOON[0]) || |TRIBUNAL| != |BLOODMOON|;
  }

  /** Take the entry at `from` out and put it in front of the entry that was at `before`. */
  function MoveInFrontOf<T>(s: seq<T>, from: nat, before: nat): seq<T>
    requires from < |s| && before < |s| && from != before
  {
    var rest := Without(s, from);
    var at := if from < before then before - 1 else before;
    rest[..at] + [s[from]] + rest[at..]
  }

  lemma InsertThenErase(s: seq<string>, from: nat, before: nat)
    requires from < |s| && before < |s| && from != before
    ensures var inserted := s[..before] + [s[from]] + s[before..];
            var index := if before < from then from + 1 else from;
            inserted[..index] + inserted[index + 1..] == MoveInFrontOf(s, from, before)
  {}

  /** Insert a copy of Tribunal in front of Bloodmoon, then erase the original. */
  method PlaceTribunal(files: seq<string>) returns (sortedFiles: seq<string>)
    ensures !HasAllThree(files) ==> sortedFiles == files
    ensures HasAllThree(files) ==> FindString(files, TRIBUNAL) != FindString(files, BLOODMOON)
    ensures HasAllThree(files) ==>
              sortedFiles == MoveInFrontOf(files, FindString(files, TRIBUNAL), FindString(files, BLOODMOON))
  {
    sortedFiles := files;
    if FindString(sortedFiles, MORROWIND) == |sortedFiles| { return; }
    var tribunalIndex := FindString(sortedFiles, TRIBUNAL);
    var bloodmoonIndex := FindString(sortedFiles, BLOODMOON);
    if bloodmoonIndex == |sortedFiles| || tribunalIndex == |sortedFiles| { return; }
    DifferentFiles(sortedFiles[tribunalIndex]);
    InsertThenErase(sortedFiles, tribunalIndex, bloodmoonIndex);
    var tribunal := sortedFiles[tribunalIndex];
    var bloodmoonIter := bloodmoonIndex;
    if bloodmoonIndex < tribunalIndex { tribunalIndex := tribunalIndex + 1; }
    sortedFiles := sortedFiles[..bloodmoonIter] + [tribunal] + sortedFiles[bloodmoonIter..];
    sortedFiles := sortedFiles[..tribunalIndex] + sortedFiles[tribunalIndex + 1..];
  }

  /** The move puts the entry right in front and keeps the rest in order, */
  lemma MovedInFront<T>(s: seq<T>, from: nat, before: nat)
    requires from < |s| && before < |s| && from != before
    ensures var r, at := MoveInFrontOf(s, from, before), if from < before then before - 1 else before;
            at + 1 < |r| && r[at] == s[from] && r[at + 1] == s[before] && Without(r, at) == Without(s, from)
  {
    var rest, at := Without(s, from), if from < before then before - 1 else before;
    assert Without(MoveInFrontOf(s, from, before), at) == rest[..at] + rest[at..];
  }

  /** so it is a permutation. */
  lemma MovedIsPermutation<T>(s: seq<T>, from: nat, before: nat)
    requires from < |s| && before < |s| && from != before
    ensures multiset(MoveInFrontOf(s, from, before)) == multiset(s)
  {
    hide MoveInFrontOf, Without;
    var r, at := MoveInFrontOf(s, from, before), if from < before then before - 1 else before;
    MovedInFront(s, from, before);
    TakenCount(r, at);
    TakenCount(s, from);
  }

  /** The files that Tribunal jumps over: if it moves back they must not depend on it, if it moves
      forward it must not depend on them. */
  predicate SafeToMove(all: seq<File>, files: seq<string>, from: nat, before: nat)
    requires from < |files| && before < |files|
  {
    && (forall k :: from < k < before ==> !DependsOn(all, files[k], files[from]))
    && (forall k :: before <= k < from ==> !DependsOn(all, files[from], files[k]))
  }

  /** Where the entry at `i` after the move was before it. */
  function Origin(from: nat, before: nat, i: nat): nat {
    if from < before
    then if i == before - 1 then from else if from <= i < before then i + 1 else i
    else if i == before then from else if before < i <= from then i - 1 else i
  }

  lemma OriginOf<T>(s: seq<T>, from: nat, before: nat)
    requires from < |s| && before < |s| && from != before
    ensures var r := MoveInFrontOf(s, from, before);
            |r| == |s| && forall i: nat :: i < |s| ==> Origin(from, before, i) < |s| && r[i] == s[Origin(from, before, i)]
  {}

  /** An ordered list stays ordered exactly when nothing between the two positions forbids the move. */
  lemma MoveKeepsOrder(all: seq<File>, files: seq<string>, from: nat, before: nat)
    requires InOrder(all, files) && from < |files| && before < |files| && from != before
    ensures InOrder(all, MoveInFrontOf(files, from, before)) <==> SafeToMove(all, files, from, before)
  {
    hide DependsOn, MoveInFrontOf, Origin;
    var moved := MoveInFrontOf(files, from, before);
    OriginOf(files, from, before);
    if SafeToMove(all, files, from, before) {
      forall i, j | 0 <= i < j < |moved|
        ensures !DependsOn(all, moved[i], moved[j])
      {
        OriginOrder(from, before, i, j);
      }
    } else if k: nat :| from < k < before && DependsOn(all, files[k], files[from]) {
      OriginAfterMove(from, before, k);
      assert DependsOn(all, moved[k - 1], moved[before - 1]);
    } else {
      var k: nat :| before <= k < from && DependsOn(all, files[from], files[k]);
      OriginAfterMove(from, before, k);
      assert DependsOn(all, moved[before], moved[k + 1]);
    }
  }

  lemma OriginOrder(from: nat, before: nat, i: nat, j: nat)
    requires from != before && i < j
    ensures var a, b := Origin(from, before, i), Origin(from, before, j);
            a < b || (b == from < a < before) || (before <= b < a == from)
  {}

  lemma OriginAfterMove(from: nat, before: nat, k: nat)
    requires from < k < before || before <= k < from
    ensures if from < before then Origin(from, before, k - 1) == k && Origin(from, before, before - 1) == from
            else Origin(from, before, k + 1) == k && Origin(from, before, before) == from
  {}

  lemma {:induction false} FoundAt(files: seq<string>, name: string, i: nat)
    requires i < |files| && CiEqual(files[i], name) && forall j :: 0 <= j < i ==> !CiEqual(files[j], name)
    ensures FindString(files, name) == i
  {
    if i > 0 { FoundAt(files[1..], name, i - 1); }
  }

  /** A plugin sorted between Tribunal and Bloodmoon that depends on Tribunal ends up before it. */
  lemma RelocationCanBreakOrder()
    ensures var all := [File(MORROWIND, []), File(TRIBUNAL, [MORROWIND]), File("Plugin.esp", [TRIBUNAL]), File(BLOODMOON, [MORROWIND])];
            var files := Names(all);
            && HasAllThree(files) && UniqueNames(all) && InOrder(all, files)
            && FindString(files, TRIBUNAL) == 1 && FindString(files, BLOODMOON) == 3
            && !InOrder(all, MoveInFrontOf(files, 1, 3))
  {
    hide CiEqual, FindString, InOrder, MoveInFrontOf;
    var all := [File(MORROWIND, []), File(TRIBUNAL, [MORROWIND]), File("Plugin.esp", [TRIBUNAL]), File(BLOODMOON, [MORROWIND])];
    var files := Names(all);
    FourFiles();
    FoundAt(files, MORROWIND, 0);
    FoundAt(files, TRIBUNAL, 1);
    FoundAt(files, BLOODMOON, 3);
    AlreadyOrderedIsInOrder(all);
    assert !SafeToMove(all, files, 1, 3) by { assert DependsOn(all, files[2], files[1]) by { assert all[2] in all; } }
    MoveKeepsOrder(all, files, 1, 3);
  }

  lemma FourFiles()
    ensures CiEqual(MORROWIND, MORROWIND) && CiEqual(TRIBUNAL, TRIBUNAL) && CiEqual(BLOODMOON, BLOODMOON)
    ensures !CiEqual(MORROWIND, TRIBUNAL) && !CiEqual(MORROWIND, BLOODMOON) && !CiEqual(TRIBUNAL, BLOODMOON)
    ensures !CiEqual("Plugin.esp", BLOODMOON)
  {
    assert LowerChar(MORROWIND[0]) != LowerChar(BLOODMOON[0]);
  }

  /** The end of importGameFiles: the sort followed by the relocation. */
  method ContentOrder(all: seq<File>) returns (sortedFiles: seq<string>, sorted: seq<string>)
    ensures multiset(sortedFiles) == multiset(Names(all)) == multiset(sorted)
    ensures !HasAllThree(sorted) ==> sortedFiles == sorted
    ensures UniqueNames(all) && Acyclic(all) ==> InOrder(all, sorted)
    ensures UniqueNames(all) && Acyclic(all) && HasAllThree(sorted) ==>
              (InOrder(all, sortedFiles) <==> SafeToMove(all, sorted, FindString(sorted, TRIBUNAL), FindString(sorted, BLOODMOON)))
  {
    hide InOrder, SafeToMove, FindString, CiEqual, SortedUpToCycles, UniqueNames, Acyclic, AlreadyOrdered, MoveInFrontOf;
    sorted := DependencySort(all);
    sortedFiles := PlaceTribunal(sorted);
    if UniqueNames(all) && Acyclic(all) { TopologicalWhenAcyclic(all, sorted); }
    if HasAllThree(sorted) {
      var from, before := FindString(sorted, TRIBUNAL), FindString(sorted, BLOODMOON);
      MovedIsPermutation(sorted, from, before);
      if InOrder(all, sorted) { MoveKeepsOrder(all, sorted, from, before); }
    }
  }
}
