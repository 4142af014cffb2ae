/**
  The lists of CPU names: the distinct known names of a table, the extension of such a list by the names
  of ARM parts, and the list a comma-separated string stands for.
 */
module NameLists {
  import opened Text
  import opened Collections

  // ----- distinct known names

  predicate IsKnownName(name: string) { !Contains(name, "Unknown") }

  function KnownNames(names: seq<string>): (known: seq<string>)
    ensures |known| <= |names|
  {
    if names == [] then []
    else
      var known, last := KnownNames(names[..|names| - 1]), names[|names| - 1];
      if IsKnownName(last) then known + [last] else known
  }

  /** A list with those further names that it does not have yet. */
  function Extended(names: seq<string>, more: seq<string>): (r: seq<string>)
    ensures names <= r && |r| <= |names| + |more|
  {
    if more == [] then names
    else
      var r, last := Extended(names, more[..|more| - 1]), more[|more| - 1];
      if last in r then r else r + [last]
  }

  /** Extending a list of first occurrences gives those of both sequences together. */
  lemma {:induction false} ExtendedFirstOccurrences(names: seq<string>, more: seq<string>)
    ensures Extended(FirstOccurrences(names), more) == FirstOccurrences(names + more)
  {
    if more == [] {
      assert names + more == names;
    } else {
      var front, last := more[..|more| - 1], more[|more| - 1];
      ExtendedFirstOccurrences(names, front);
      assert (names + more)[..|names + more| - 1] == names + front;
    }
  }

  lemma {:induction false} ExtendedHasNoDuplicates(names: seq<string>, more: seq<string>)
    requires NoDuplicates(names)
    ensures NoDuplicates(Extended(names, more))
    ensures forall x :: x in Extended(names, more) <==> x in names || x in more
  {
    if more != [] {
      var front, last := more[..|more| - 1], more[|more| - 1];
      assert more == front + [last];
      ExtendedHasNoDuplicates(names, front);
    }
  }

  lemma {:induction false} KnownConcat(a: seq<string>, b: seq<string>)
    ensures KnownNames(a + b) == KnownNames(a) + KnownNames(b)
  {
    if b == [] {
      assert a + b == a;
    } else {
      var front, last := b[..|b| - 1], b[|b| - 1];
      KnownConcat(a, front);
      assert (a + b)[..|a + b| - 1] == a + front;
      assert KnownNames(b) == KnownNames(front) + if IsKnownName(last) then [last] else [];
    }
  }

  /** The list after both tables: the first occurrences of the known names of the one and then the other. */
  lemma {:induction false} BothTables(table: seq<string>, parts: seq<string>)
    ensures Extended(FirstOccurrences(KnownNames(table)), KnownNames(parts))
      == FirstOccurrences(KnownNames(table + parts))
    ensures FirstOccurrences(KnownNames(table)) <= FirstOccurrences(KnownNames(table + parts))
    ensures NoDuplicates(FirstOccurrences(KnownNames(table + parts)))
  {
    KnownConcat(table, parts);
    ExtendedFirstOccurrences(KnownNames(table), KnownNames(parts));
    FirstOccurrencesOrdered(KnownNames(table + parts));
  }

  /** What is listed: exactly the known names, in table order, once each. */
  lemma {:induction false} ListedIff(table: seq<string>, name: string)
    ensures name in FirstOccurrences(KnownNames(table)) <==> name in table && !Contains(name, "Unknown")
  {
    KnownIff(table, name);
  }

  lemma {:induction false} KnownIff(table: seq<string>, name: string)
    ensures name in KnownNames(table) <==> name in table && IsKnownName(name)
  {
    if table != [] {
      var front := table[..|table| - 1];
      assert table == front + [table[|table| - 1]];
      KnownIff(front, name);
    }
  }

  /** One more name of a table extends the list by itself if it is known. */
  lemma {:induction false} ExtendedNext(names: seq<string>, table: seq<string>, i: nat)
    requires i < |table|
    ensures Extended(names, KnownNames(table[..i + 1]))
      == Extended(Extended(names, KnownNames(table[..i])), if IsKnownName(table[i]) then [table[i]] else [])
  {
    KnownAppend(table[..i], table[i]);
    assert table[..i + 1] == table[..i] + [table[i]];
    if IsKnownName(table[i]) {
      ExtendedAppend(names, KnownNames(table[..i]), table[i]);
    }
  }

  lemma {:induction false} KnownAppend(names: seq<string>, last: string)
    ensures KnownNames(names + [last]) == KnownNames(names) + if IsKnownName(last) then [last] else []
  {
    assert (names + [last])[..|names|] == names;
  }

  lemma {:induction false} ExtendedAppend(names: seq<string>, more: seq<string>, last: string)
    ensures Extended(names, more + [last]) == Extended(Extended(names, more), [last])
  {
    assert (more + [last])[..|more|] == more;
    assert [last][..0] == [];
  }

  // ----- the list under construction

  /** A row of the table of ARM parts; a negative id ends the table. */
  datatype Part = Part(id: int, name: string)

  predicate IsTerminatedTable(parts: seq<Part>) { exists i | 0 <= i < |parts| :: parts[i].id < 0 }

  /** The names before the end of the table. */
  function PartNames(parts: seq<Part>): (names: seq<string>)
    ensures |names| <= |parts|
  {
    if parts == [] || parts[0].id < 0 then [] else [parts[0].name] + PartNames(parts[1..])
  }

  lemma {:induction false} PartNamesAre(parts: seq<Part>, n: nat)
    requires n < |parts| && parts[n].id < 0 && forall i | 0 <= i < n :: parts[i].id >= 0
    ensures |PartNames(parts)| == n && forall i | 0 <= i < n :: PartNames(parts)[i] == parts[i].name
    decreases n
  {
    if n > 0 {
      PartNamesAre(parts[1..], n - 1);
    }
  }

  /** `cpu_list_t` */
  class CpuList {
    var names: seq<string>

    constructor ()
      ensures names == []
    {
      names := [];
    }

    /** The search backwards through the names listed so far. */
    method IsListed(name: string) returns (listed: bool)
      ensures listed <==> name in names
    {
      var j := |names| - 1;
      while j >= 0
        invariant -1 <= j < |names|
        invariant name !in names[j + 1..]
      {
        if names[j] == name { return true; }
        j := j - 1;
      }
      assert names[0..] == names;
      return false;
    }

    /** One name of a table: listed unless it is unknown or listed already. */
    method Consider(name: string)
      modifies this
      ensures names == Extended(old(names), if IsKnownName(name) then [name] else [])
    {
      var unknownAt := StrStr(name, "Unknown");
      if unknownAt >= 0 { return; }
      assert [] + [name] == [name];
      var listed := IsListed(name);
      if !listed { names := names + [name]; }
    }

    /** `generic_get_cpu_list`; the list never outgrows the table. */
    method GenericGetCpuList(table: seq<string>)
      modifies this
      ensures names == FirstOccurrences(KnownNames(table)) && |names| <= |table|
    {
      names := [];
      for i := 0 to |table|
        invariant names == FirstOccurrences(KnownNames(table[..i])) && |names| <= i
      {
        assert table[..i + 1] == table[..i] + [table[i]];
        ExtendedFirstOccurrences(KnownNames(table[..i]), if IsKnownName(table[i]) then [table[i]] else []);
        Consider(table[i]);
      }
      assert table[..|table|] == table;
    }

    /** The number of parts before the end of the table. */
    static method CountParts(parts: seq<Part>) returns (subCount: nat)
      requires IsTerminatedTable(parts)
      ensures subCount == |PartNames(parts)| && forall i | 0 <= i < subCount :: PartNames(parts)[i] == parts[i].name
    {
      subCount := 0;
      ghost var end :| 0 <= end < |parts| && parts[end].id < 0;
      while parts[subCount].id >= 0
        invariant subCount <= end && forall i | 0 <= i < subCount :: parts[i].id >= 0
        decreases end - subCount
      {
        subCount := subCount + 1;
      }
      PartNamesAre(parts, subCount);
    }

    /** `cpuid_get_list_arm`; the list never outgrows the room for its old names and all parts. */
    method GetListArm(parts: seq<Part>)
      requires IsTerminatedTable(parts)
      modifies this
      ensures names == Extended(old(names), KnownNames(PartNames(parts)))
      ensures old(names) <= names && |names| <= |old(names)| + |PartNames(parts)|
    {
      var subCount := CountParts(parts);
      ghost var all := PartNames(parts);
      if subCount == 0 { return; }
      for i := 0 to subCount
        invariant names == Extended(old(names), KnownNames(all[..i]))
      {
        ExtendedNext(old(names), all, i);
        Consider(parts[i].name);
      }
      assert all[..subCount] == all;
    }
  }

  // ----- make_list_from_string

  function Commas(csv: string): nat {
    if csv == "" then 0 else (if csv[0] == ',' then 1 else 0) + Commas(csv[1..])
  }

  function FirstComma(csv: string): (k: nat)
    requires ',' in csv
    ensures k < |csv| && csv[k] == ',' && ',' !in csv[..k]
  {
    if csv[0] == ',' then 0 else 1 + FirstComma(csv[1..])
  }

  /** The names a comma-separated string stands for. */
  function Split(csv: string): (names: seq<string>)
    ensures names != []
    decreases |csv|
  {
    if ',' !in csv then [csv]
    else
      var k := FirstComma(csv);
      [csv[..k]] + Split(csv[k + 1..])
  }

  function Joined(names: seq<string>): string
    requires names != []
  {
    if |names| == 1 then names[0] else names[0] + "," + Joined(names[1..])
  }

  lemma {:induction false} JoinedSplit(csv: string)
    ensures Joined(Split(csv)) == csv
    ensures forall i | 0 <= i < |Split(csv)| :: ',' !in Split(csv)[i]
    decreases |csv|
  {
    if ',' in csv {
      var k := FirstComma(csv);
      JoinedSplit(csv[k + 1..]);
      assert Split(csv)[1..] == Split(csv[k + 1..]);
      assert csv == csv[..k] + "," + csv[k + 1..];
    }
  }

  lemma {:induction false} FirstCommaIs(csv: string, k: nat)
    requires k < |csv| && csv[k] == ',' && ',' !in csv[..k]
    ensures FirstComma(csv) == k
  {
    var j := FirstComma(csv);
    assert forall i | 0 <= i < k :: csv[i] == csv[..k][i];
    assert forall i | 0 <= i < j :: csv[i] == csv[..j][i];
  }

  lemma {:induction false} SplitFirst(name: string, rest: string)
    requires ',' !in name
    ensures Split(name + "," + rest) == [name] + Split(rest)
  {
    var csv := name + "," + rest;
    assert csv[|name|] == ',' && csv[..|name|] == name && csv[|name| + 1..] == rest;
    FirstCommaIs(csv, |name|);
  }

  /** Names without commas are recovered: the split is the only one. */
  lemma {:induction false} SplitJoined(names: seq<string>)
    requires names != [] && forall i | 0 <= i < |names| :: ',' !in names[i]
    ensures Split(Joined(names)) == names
  {
    if |names| > 1 {
      SplitJoined(names[1..]);
      SplitFirst(names[0], Joined(names[1..]));
      assert names == [names[0]] + names[1..];
    }
  }

  lemma {:induction false} CommasConcat(a: string, b: string)
    ensures Commas(a + b) == Commas(a) + Commas(b)
  {
    if a == "" {
      assert a + b == b;
    } else {
      CommasConcat(a[1..], b);
      assert (a + b)[1..] == a[1..] + b;
    }
  }

  lemma {:induction false} NoCommas(s: string)
    requires ',' !in s
    ensures Commas(s) == 0
  {
    if s != "" {
      assert s[0] in s && (forall c | c in s[1..] :: c in s);
      NoCommas(s[1..]);
    }
  }

  /** There is one name more than there are commas. */
  lemma {:induction false} SplitCount(csv: string)
    ensures |Split(csv)| == Commas(csv) + 1
    decreases |csv|
  {
    if ',' !in csv {
      NoCommas(csv);
    } else {
      var k := FirstComma(csv);
      SplitCount(csv[k + 1..]);
      NoCommas(csv[..k]);
      CommasConcat(csv[..k], "," + csv[k + 1..]);
      assert csv == csv[..k] + ("," + csv[k + 1..]);
    }
  }

  lemma {:induction false} CommasStep(csv: string, i: nat)
    requires i < |csv|
    ensures Commas(csv[..i + 1]) == Commas(csv[..i]) + if csv[i] == ',' then 1 else 0
  {
    CommasConcat(csv[..i], [csv[i]]);
    assert csv[..i + 1] == csv[..i] + [csv[i]];
    assert Commas([csv[i]]) == if csv[i] == ',' then 1 else 0;
  }

  /** The name from one offset up to the next comma, or to the end of the string. */
  lemma {:induction false} NextName(csv: string, start: nat, i: nat)
    requires start <= i <= |csv| && ',' !in csv[start..i] && (i < |csv| ==> csv[i] == ',')
    ensures Split(csv[start..])
      == if i < |csv| then [csv[start..i]] + Split(csv[i + 1..]) else [csv[start..i]]
  {
    var rest, k := csv[start..], i - start;
    assert rest[..k] == csv[start..i];
    if i < |csv| {
      FirstCommaIs(rest, k);
      assert rest[k + 1..] == csv[i + 1..];
    } else {
      assert rest == csv[start..i];
    }
  }

  /** The names before offset `i`; the last of them ended at `last`. */
  ghost predicate Filling(csv: string, i: nat, last: int, done: seq<string>) {
    && -1 <= last < i <= |csv| + 1
    && (last == |csv| <==> i == |csv| + 1)
    && if last == |csv| then done == Split(csv)
       else ',' !in csv[last + 1..i] && done + Split(csv[last + 1..]) == Split(csv)
  }

  lemma {:induction false} FillName(csv: string, i: nat, last: int, done: seq<string>)
    requires Filling(csv, i, last, done) && i <= |csv| && (i == |csv| || csv[i] == ',')
    ensures |done| < |Split(csv)| && Filling(csv, i + 1, i, done + [csv[last + 1..i]])
  {
    NextName(csv, last + 1, i);
    if i < |csv| {
      ConcatAssociates(done, [csv[last + 1..i]], Split(csv[i + 1..]));
      assert csv[i + 1..i + 1] == "";
    }
  }

  lemma {:induction false} FillMore(csv: string, i: nat, last: int, done: seq<string>)
    requires Filling(csv, i, last, done) && i < |csv| && csv[i] != ','
    ensures Filling(csv, i + 1, last, done)
  {
    assert csv[last + 1..i + 1] == csv[last + 1..i] + [csv[i]];
  }

  lemma {:induction false} FillStart(csv: string)
    ensures Filling(csv, 0, -1, [])
  {
    assert csv[0..] == csv;
  }

  lemma {:induction false} FillEnd(csv: string, last: int, done: seq<string>)
    requires Filling(csv, |csv| + 1, last, done)
    ensures done == Split(csv)
  {
  }

  /** The first pass: as many names as commas, and one more. */
  method CountNames(csv: string) returns (n: nat)
    ensures n == |Split(csv)|
  {
    n := 0;
    for i := 0 to |csv|
      invariant n == Commas(csv[..i])
    {
      CommasStep(csv, i);
      if csv[i] == ',' { n := n + 1; }
    }
    assert csv[..|csv|] == csv;
    SplitCount(csv);
    n := n + 1;
  }

  /** `make_list_from_string`: the second pass fills exactly the room the first one counted. */
  method MakeListFromString(csv: string) returns (names: array<string>)
    ensures names[..] == Split(csv)
  {
    var n := CountNames(csv);
    names := new string[n];
    var last := -1;
    n := 0;
    ghost var done, whole := [], Split(csv);
    FillStart(csv);
    for i := 0 to |csv| + 1
      invariant n == |done| <= names.Length == |whole|
      invariant forall k | 0 <= k < n :: names[k] == done[k]
      invariant Filling(csv, i, last, done)
    {
      if i == |csv| || csv[i] == ',' {
        FillName(csv, i, last, done);
        names[n] := csv[last + 1..i];
        n := n + 1;
        done := done + [csv[last + 1..i]];
        last := i;
      } else {
        FillMore(csv, i, last, done);
      }
    }
    FillEnd(csv, last, done);
    assert names[..] == done;
  }
}
