/** The code catalogue index: every catalogue entry whose code name and code
    are non-empty once stripped and upper-cased adds its code to the set of
    its code name. Both scripts build it with the same loop. */
module CodeIndex {
  import opened Text

  /** One catalogue entry; a key the entry lacks reads as "". */
  datatype CodeRecord = CodeRecord(codeName: string, code: string)

  /** A record's code name and code, stripped and upper-cased. */
  datatype Entry = Entry(name: string, code: string)

  /** Field type to the set of codes allowed for it. */
  type Index = map<string, set<string>>

  function Normalized(r: CodeRecord): Entry {
    Entry(Normalize(r.codeName), Normalize(r.code))
  }

  function Entries(records: seq<CodeRecord>): (es: seq<Entry>)
    ensures |es| == |records|
    ensures forall i :: 0 <= i < |records| ==> es[i] == Normalized(records[i])
  {
    seq(|records|, i requires 0 <= i < |records| => Normalized(records[i]))
  }

  /** The loop keeps an entry when both halves are non-empty. */
  predicate Kept(e: Entry) {
    e.name != [] && e.code != []
  }

  /** setdefault(name, set()).add(code). */
  function AddCode(m: Index, name: string, code: string): (r: Index)
    ensures r.Keys == m.Keys + {name}
    ensures r[name] == (if name in m then m[name] else {}) + {code}
    ensures forall n :: n in m && n != name ==> r[n] == m[n]
  {
    m[name := (if name in m then m[name] else {}) + {code}]
  }

  /** The index built from the normalised entries `es`, in order. */
  function IndexOfEntries(es: seq<Entry>): Index
    decreases |es|
  {
    if es == [] then map[]
    else
      var m := IndexOfEntries(es[..|es| - 1]);
      var e := es[|es| - 1];
      if Kept(e) then AddCode(m, e.name, e.code) else m
  }

  /** The index the loop builds from the catalogue. */
  function IndexOf(records: seq<CodeRecord>): Index {
    IndexOfEntries(Entries(records))
  }

  /** A code is in a field's set exactly when some entry carries that
      non-empty pair. */
  lemma {:induction false} EntriesMembership(es: seq<Entry>, name: string, code: string)
    ensures (name in IndexOfEntries(es) && code in IndexOfEntries(es)[name]) <==>
            (Kept(Entry(name, code)) && Entry(name, code) in es)
    decreases |es|
  {
    if es != [] {
      var pre := es[..|es| - 1];
      EntriesMembership(pre, name, code);
      assert es == pre + [es[|es| - 1]];
    }
  }

  /** A field type is a key exactly when some kept entry names it. */
  lemma {:induction false} EntriesKeys(es: seq<Entry>, name: string)
    ensures name in IndexOfEntries(es) <==>
            exists i :: 0 <= i < |es| && Kept(es[i]) && es[i].name == name
    decreases |es|
  {
    if es != [] {
      var pre := es[..|es| - 1];
      EntriesKeys(pre, name);
      if exists i :: 0 <= i < |pre| && Kept(pre[i]) && pre[i].name == name {
        var i :| 0 <= i < |pre| && Kept(pre[i]) && pre[i].name == name;
        assert es[i] == pre[i];
      }
      if exists i :: 0 <= i < |es| && Kept(es[i]) && es[i].name == name {
        var i :| 0 <= i < |es| && Kept(es[i]) && es[i].name == name;
        if i < |pre| { assert pre[i] == es[i]; }
      }
    }
  }

  /** Every key and code comes from a kept entry, and every key has a code. */
  lemma {:induction false} EntriesDrawn(es: seq<Entry>)
    ensures forall name :: name in IndexOfEntries(es) ==> IndexOfEntries(es)[name] != {}
    ensures forall name, code :: name in IndexOfEntries(es) && code in IndexOfEntries(es)[name] ==>
              Kept(Entry(name, code)) && Entry(name, code) in es
    decreases |es|
  {
    if es != [] {
      var pre := es[..|es| - 1];
      EntriesDrawn(pre);
      assert es == pre + [es[|es| - 1]];
    }
  }

  /** The index is empty exactly when no entry is kept. */
  lemma {:induction false} EntriesEmptyIff(es: seq<Entry>)
    ensures IndexOfEntries(es) == map[] <==> forall i :: 0 <= i < |es| ==> !Kept(es[i])
    decreases |es|
  {
    if es != [] {
      var pre := es[..|es| - 1];
      EntriesEmptyIff(pre);
      forall i | 0 <= i < |pre| ensures pre[i] == es[i] { }
    }
  }

  /** The record normalises to the non-empty pair (name, code). */
  predicate Contributes(r: CodeRecord, name: string, code: string) {
    Normalized(r) == Entry(name, code) && name != [] && code != []
  }

  /** A code is in a field's set exactly when some catalogue record
      normalises to that non-empty pair. */
  lemma IndexMembership(records: seq<CodeRecord>, name: string, code: string)
    ensures (name in IndexOf(records) && code in IndexOf(records)[name]) <==>
            exists i :: 0 <= i < |records| && Contributes(records[i], name, code)
  {
    var es := Entries(records);
    EntriesMembership(es, name, code);
    if Entry(name, code) in es {
      var i :| 0 <= i < |es| && es[i] == Entry(name, code);
      assert Normalized(records[i]) == es[i];
    }
  }

  /** A field type is a key exactly when some kept record names it. */
  lemma IndexKeys(records: seq<CodeRecord>, name: string)
    ensures name in IndexOf(records) <==>
            exists i :: 0 <= i < |records| && Kept(Normalized(records[i])) && Normalized(records[i]).name == name
  {
    EntriesKeys(Entries(records), name);
  }

  /** Every key and every code is non-empty, stripped and upper-cased, and
      every key has at least one code. */
  ghost predicate WellFormedIndex(m: Index) {
    forall name :: name in m ==>
      && name != [] && Trimmed(name) && NoLower(name) && m[name] != {}
      && forall code :: code in m[name] ==> code != [] && Trimmed(code) && NoLower(code)
  }

  /** Both halves of a normalised record are stripped and upper-cased. */
  lemma NormalizedShape(r: CodeRecord)
    ensures Trimmed(Normalized(r).name) && NoLower(Normalized(r).name)
    ensures Trimmed(Normalized(r).code) && NoLower(Normalized(r).code)
  {
    NormalizeShape(r.codeName);
    NormalizeShape(r.code);
  }

  /** Every pair in the index is the normalised form of some record. */
  lemma IndexDrawn(records: seq<CodeRecord>, name: string, code: string)
    requires name in IndexOf(records) && code in IndexOf(records)[name]
    ensures exists i :: 0 <= i < |records| && Normalized(records[i]) == Entry(name, code)
    ensures name != [] && code != []
  {
    var es := Entries(records);
    EntriesDrawn(es);
    var i :| 0 <= i < |es| && es[i] == Entry(name, code);
    assert Normalized(records[i]) == es[i];
  }

  /** A pair of the index is non-empty, stripped and upper-cased on both
      sides. */
  lemma PairShape(records: seq<CodeRecord>, name: string, code: string)
    requires name in IndexOf(records) && code in IndexOf(records)[name]
    ensures name != [] && Trimmed(name) && NoLower(name)
    ensures code != [] && Trimmed(code) && NoLower(code)
  {
    IndexDrawn(records, name, code);
    var i :| 0 <= i < |records| && Normalized(records[i]) == Entry(name, code);
    NormalizedShape(records[i]);
  }

  lemma IndexWellFormed(records: seq<CodeRecord>)
    ensures WellFormedIndex(IndexOf(records))
  {
    var m := IndexOf(records);
    EntriesDrawn(Entries(records));
    forall name | name in m
      ensures name != [] && Trimmed(name) && NoLower(name) && m[name] != {}
      ensures forall code :: code in m[name] ==> code != [] && Trimmed(code) && NoLower(code)
    {
      var code :| code in m[name];
      PairShape(records, name, code);
      forall code | code in m[name] ensures code != [] && Trimmed(code) && NoLower(code) {
        PairShape(records, name, code);
      }
    }
  }

  /** The index is empty exactly when no record is kept; the scripts stop
      before laying out an empty index. */
  lemma IndexEmptyIff(records: seq<CodeRecord>)
    ensures IndexOf(records) == map[] <==> forall i :: 0 <= i < |records| ==> !Kept(Normalized(records[i]))
  {
    EntriesEmptyIff(Entries(records));
  }

  /** A key of the index of `a` is a key of the index of any catalogue that
      holds all of `a`'s records. */
  lemma KeyTransfer(a: seq<CodeRecord>, b: seq<CodeRecord>, name: string)
    requires forall x :: x in a ==> x in b
    requires name in IndexOf(a)
    ensures name in IndexOf(b)
  {
    IndexKeys(a, name);
    var i :| 0 <= i < |a| && Kept(Normalized(a[i])) && Normalized(a[i]).name == name;
    assert a[i] in b;
    var j :| 0 <= j < |b| && b[j] == a[i];
    IndexKeys(b, name);
  }

  /** A pair of the index of `a` is a pair of the index of any catalogue
      that holds all of `a`'s records. */
  lemma CodeTransfer(a: seq<CodeRecord>, b: seq<CodeRecord>, name: string, code: string)
    requires forall x :: x in a ==> x in b
    requires name in IndexOf(a) && code in IndexOf(a)[name]
    ensures name in IndexOf(b) && code in IndexOf(b)[name]
  {
    IndexMembership(a, name, code);
    var i :| 0 <= i < |a| && Contributes(a[i], name, code);
    assert a[i] in b;
    var j :| 0 <= j < |b| && b[j] == a[i];
    IndexMembership(b, name, code);
  }

  /** Reordered and repeated records give the same index: it depends only on
      which records the catalogue holds. */
  lemma IndexOrderFree(a: seq<CodeRecord>, b: seq<CodeRecord>)
    requires forall x :: x in a <==> x in b
    ensures IndexOf(a) == IndexOf(b)
  {
    forall name ensures name in IndexOf(a) <==> name in IndexOf(b) {
      if name in IndexOf(a) { KeyTransfer(a, b, name); }
      if name in IndexOf(b) { KeyTransfer(b, a, name); }
    }
    forall name | name in IndexOf(a) ensures IndexOf(a)[name] == IndexOf(b)[name] {
      forall code ensures code in IndexOf(a)[name] <==> code in IndexOf(b)[name] {
        if code in IndexOf(a)[name] { CodeTransfer(a, b, name, code); }
        if code in IndexOf(b)[name] { CodeTransfer(b, a, name, code); }
      }
    }
  }

  /** A record listed twice adds nothing a single listing does not. */
  lemma DuplicateRecord(r: CodeRecord)
    ensures IndexOf([r]) == IndexOf([r, r])
  {
    IndexOrderFree([r], [r, r]);
  }

  /** Reading one more record is one more turn of the loop. */
  lemma IndexOfSnoc(records: seq<CodeRecord>, k: int)
    requires 0 <= k < |records|
    ensures var e := Normalized(records[k]);
            IndexOf(records[..k + 1]) ==
            if Kept(e) then AddCode(IndexOf(records[..k]), e.name, e.code) else IndexOf(records[..k])
  {
    var es := Entries(records[..k + 1]);
    assert es[..k] == Entries(records[..k]);
  }

  /** The loop that builds the index, one record at a time. */
  method BuildCodeIndex(records: seq<CodeRecord>) returns (lookup: Index)
    ensures lookup == IndexOf(records)
  {
    lookup := map[];
    for k := 0 to |records|
      invariant lookup == IndexOf(records[..k])
    {
      IndexOfSnoc(records, k);
      var name := Normalize(records[k].codeName);
      var code := Normalize(records[k].code);
      if name != [] && code != [] {
        var codes := if name in lookup then lookup[name] else {};
        lookup := lookup[name := codes + {code}];
      }
    }
    assert records[..|records|] == records;
  }
}
