/** Readers for the fixed-format text the lowering emits: the scope-record
    declarations of `gen_context`, the parameter lists of the call
    convention, scope-slot paths and scope entries. Each reader is an
    independent description of its format, and each round-trip lemma shows
    that the emitted text reads back to exactly the data it was emitted
    from: record ids, parents, slots, parameter numbers, hop counts. */
module Decode {
  import opened Results
  import opened Text
  import opened Sema
  import opened Lowering

  /** The numbers `lo`, `lo + 1`, ..., `hi - 1`. */
  function Range(lo: nat, hi: nat): (r: seq<nat>)
    ensures |r| == if hi <= lo then 0 else hi - lo
    ensures forall i :: 0 <= i < |r| ==> r[i] == lo + i
    decreases hi - lo
  {
    if hi <= lo then [] else [lo] + Range(lo + 1, hi)
  }

  /** Reads `prefix`, a numeral and `suffix` at the front of `t`. */
  function ScanNumbered(prefix: string, suffix: string, t: string): (r: Option<(nat, string)>)
    ensures r.Some? ==> |r.value.1| < |t|
  {
    var a :- StripPrefix(prefix, t);
    var n :- ScanNat(a);
    var b :- StripPrefix(suffix, n.1);
    Some((n.0, b))
  }

  /** `prefix + NatStr(n) + suffix + rest` reads back as `n`, provided
      `suffix` does not start with a digit. */
  lemma ScanNumberedOf(prefix: string, n: nat, suffix: string, rest: string)
    requires suffix != [] && !IsDigit(suffix[0])
    ensures ScanNumbered(prefix, suffix, prefix + NatStr(n) + suffix + rest) == Some((n, rest))
  {
    var t := prefix + NatStr(n) + suffix + rest;
    assert t == prefix + (NatStr(n) + (suffix + rest));
    StripPrefixOf(prefix, NatStr(n) + (suffix + rest));
    ScanNatStr(n, suffix + rest);
    StripPrefixOf(suffix, rest);
  }

  /** The same with no prefix. */
  lemma ScanNumberedNext(n: nat, suffix: string, rest: string)
    requires suffix != [] && !IsDigit(suffix[0])
    ensures ScanNumbered("", suffix, NatStr(n) + suffix + rest) == Some((n, rest))
  {
    Assoc(NatStr(n), suffix, rest);
    ScanNatStr(n, suffix + rest);
    StripPrefixOf(suffix, rest);
  }

  /** Text that does not start with `prefix` reads as nothing. */
  lemma ScanNumberedMiss(prefix: string, suffix: string, t: string)
    requires !(prefix <= t)
    ensures ScanNumbered(prefix, suffix, t).None?
  {
  }

  // ------------------------------------------------------- scope records

  /** Reads forward declarations until the text stops starting with one. */
  function DecodeForwards(t: string): (r: (seq<nat>, string))
    decreases |t|
  {
    match ScanNumbered("struct Scope", ";\n", t)
    case None => ([], t)
    case Some(p) =>
      var more := DecodeForwards(p.1);
      ([p.0] + more.0, more.1)
  }

  function ScanParent(t: string): (r: (Option<ScopeId>, string))
    ensures |r.1| <= |t|
  {
    match ScanNumbered("Scope", " *parent;\n", t)
    case None => (None, t)
    case Some(p) => (Some(p.0), p.1)
  }

  /** Reads slot lines until the text stops starting with one. */
  function DecodeSlots(t: string): (r: (seq<DeclId>, string))
    ensures |r.1| <= |t|
    decreases |t|
  {
    match ScanNumbered("FNValue var", "=FNValue::encodeUndefined();\n", t)
    case None => ([], t)
    case Some(p) =>
      var more := DecodeSlots(p.1);
      ([p.0] + more.0, more.1)
  }

  /** What one scope definition says: the record's id, its parent and its
      slots. */
  datatype Record = Record(id: ScopeId, parent: Option<ScopeId>, slots: seq<DeclId>)

  function DecodeDef(t: string): (r: Option<(Record, string)>)
    ensures r.Some? ==> |r.value.1| < |t|
  {
    var h :- ScanNumbered("struct Scope", "{\n", t);
    var p := ScanParent(h.1);
    var s := DecodeSlots(p.1);
    var e :- StripPrefix("};\n", s.1);
    Some((Record(h.0, p.0, s.0), e))
  }

  /** Reads scope definitions until the text stops starting with one. */
  function DecodeDefs(t: string): (r: (seq<Record>, string))
    decreases |t|
  {
    match DecodeDef(t)
    case None => ([], t)
    case Some(p) =>
      var more := DecodeDefs(p.1);
      ([p.0] + more.0, more.1)
  }

  /** A context: its forward declarations, its definitions, and the text
      after it. */
  function DecodeContext(t: string): (seq<nat>, seq<Record>, string)
  {
    var f := DecodeForwards(t);
    var d := DecodeDefs(f.1);
    (f.0, d.0, d.1)
  }

  /** The record scope `i` should have. */
  function RecordOf(scopes: seq<LexicalScope>, i: nat): Record
    requires i < |scopes|
  {
    Record(i, scopes[i].parentScope, scopes[i].decls)
  }

  function Records(scopes: seq<LexicalScope>, lo: nat, hi: nat): (r: seq<Record>)
    requires hi <= |scopes|
    ensures |r| == if hi <= lo then 0 else hi - lo
    ensures forall i :: 0 <= i < |r| ==> r[i] == RecordOf(scopes, lo + i)
    decreases hi - lo
  {
    if hi <= lo then [] else [RecordOf(scopes, lo)] + Records(scopes, lo + 1, hi)
  }

  lemma {:induction false} ForwardDeclsCons(lo: nat, hi: nat)
    requires lo < hi
    ensures ForwardDecls(lo, hi) == ForwardDecl(lo) + ForwardDecls(lo + 1, hi)
    decreases hi
  {
    if lo + 1 < hi {
      ForwardDeclsCons(lo, hi - 1);
    }
  }

  lemma {:induction false} ScopeDefsCons(scopes: seq<LexicalScope>, lo: nat, hi: nat)
    requires lo < hi <= |scopes|
    ensures ScopeDefs(scopes, lo, hi) == ScopeDef(lo, scopes[lo]) + ScopeDefs(scopes, lo + 1, hi)
    decreases hi
  {
    if lo + 1 < hi {
      ScopeDefsCons(scopes, lo, hi - 1);
    }
  }

  lemma {:induction false} SlotLinesCons(ds: seq<DeclId>)
    requires ds != []
    ensures SlotLines(ds) == SlotLine(ds[0]) + SlotLines(ds[1..])
    decreases |ds|
  {
    if |ds| > 1 {
      var init := ds[..|ds| - 1];
      SlotLinesCons(init);
      assert init[1..] == ds[1..][..|ds[1..]| - 1];
    }
  }

  /** Text that does not start with `struct Scope` ends both the
      forward-declaration and the definition readers. */
  lemma NoRecordAhead(rest: string)
    requires !("struct Scope" <= rest)
    ensures DecodeForwards(rest) == ([], rest)
    ensures DecodeDefs(rest) == ([], rest)
  {
  }

  lemma ForwardScan(i: ScopeId, tail: string)
    ensures ScanNumbered("struct Scope", ";\n", ForwardDecl(i) + tail) == Some((i, tail))
  {
    ScanNumberedOf("struct Scope", i, ";\n", tail);
  }

  lemma {:induction false} ForwardsRoundTrip(lo: nat, hi: nat, rest: string)
    requires ScanNumbered("struct Scope", ";\n", rest).None?
    ensures DecodeForwards(ForwardDecls(lo, hi) + rest) == (Range(lo, hi), rest)
    decreases hi - lo
  {
    var t := ForwardDecls(lo, hi) + rest;
    if lo < hi {
      ForwardDeclsCons(lo, hi);
      var tail := ForwardDecls(lo + 1, hi) + rest;
      Assoc(ForwardDecl(lo), ForwardDecls(lo + 1, hi), rest);
      ForwardScan(lo, tail);
      ForwardsRoundTrip(lo + 1, hi, rest);
      assert DecodeForwards(t) == ([lo] + Range(lo + 1, hi), rest);
    } else {
      assert t == rest;
    }
  }

  lemma {:induction false} SlotsRoundTrip(ds: seq<DeclId>, rest: string)
    requires ScanNumbered("FNValue var", "=FNValue::encodeUndefined();\n", rest).None?
    ensures DecodeSlots(SlotLines(ds) + rest) == (ds, rest)
    decreases |ds|
  {
    var t := SlotLines(ds) + rest;
    if ds != [] {
      SlotLinesCons(ds);
      var tail := SlotLines(ds[1..]) + rest;
      Assoc(SlotLine(ds[0]), SlotLines(ds[1..]), rest);
      ScanNumberedOf("FNValue var", ds[0], "=FNValue::encodeUndefined();\n", tail);
      SlotsRoundTrip(ds[1..], rest);
      assert [ds[0]] + ds[1..] == ds;
    } else {
      assert t == rest;
    }
  }

  lemma ParentRoundTrip(parent: Option<ScopeId>, rest: string)
    requires ScanNumbered("Scope", " *parent;\n", rest).None?
    ensures ScanParent(ParentField(parent) + rest) == (parent, rest)
  {
    if parent.Some? {
      ScanNumberedOf("Scope", parent.value, " *parent;\n", rest);
    } else {
      assert ParentField(parent) + rest == rest;
    }
  }

  lemma DefRoundTrip(i: ScopeId, s: LexicalScope, rest: string)
    ensures DecodeDef(ScopeDef(i, s) + rest) == Some((Record(i, s.parentScope, s.decls), rest))
  {
    var close := "};\n" + rest;
    var slots := SlotLines(s.decls) + close;
    var body := ParentField(s.parentScope) + slots;
    var head := "struct Scope" + NatStr(i) + "{\n";
    Assoc(head + ParentField(s.parentScope) + SlotLines(s.decls), "};\n", rest);
    Assoc(head + ParentField(s.parentScope), SlotLines(s.decls), close);
    Assoc(head, ParentField(s.parentScope), slots);
    ScanNumberedOf("struct Scope", i, "{\n", body);
    assert !("FNValue var" <= close) by {
      assert close[0] != "FNValue var"[0];
    }
    SlotsRoundTrip(s.decls, close);
    if s.decls == [] {
      assert !("Scope" <= slots) by {
        assert slots == close;
        assert slots[0] != "Scope"[0];
      }
    } else {
      SlotLinesCons(s.decls);
      assert !("Scope" <= slots) by {
        assert slots[0] == 'F';
      }
    }
    ParentRoundTrip(s.parentScope, slots);
    StripPrefixOf("};\n", rest);
  }

  /** One step of the definitions reader, stated over any text. */
  lemma DecodeDefsStep(t: string, rec: Record, tail: string)
    requires DecodeDef(t) == Some((rec, tail))
    ensures DecodeDefs(t) == ([rec] + DecodeDefs(tail).0, DecodeDefs(tail).1)
  {
  }

  lemma {:induction false} DefsRoundTrip(scopes: seq<LexicalScope>, lo: nat, hi: nat, rest: string)
    requires hi <= |scopes|
    requires DecodeDef(rest).None?
    ensures DecodeDefs(ScopeDefs(scopes, lo, hi) + rest) == (Records(scopes, lo, hi), rest)
    decreases hi - lo
  {
    if lo < hi {
      ScopeDefsCons(scopes, lo, hi);
      var tail := ScopeDefs(scopes, lo + 1, hi) + rest;
      Assoc(ScopeDef(lo, scopes[lo]), ScopeDefs(scopes, lo + 1, hi), rest);
      DefRoundTrip(lo, scopes[lo], tail);
      DecodeDefsStep(ScopeDefs(scopes, lo, hi) + rest, RecordOf(scopes, lo), tail);
      DefsRoundTrip(scopes, lo + 1, hi, rest);
      assert Records(scopes, lo, hi) == [RecordOf(scopes, lo)] + Records(scopes, lo + 1, hi);
    } else {
      assert ScopeDefs(scopes, lo, hi) + rest == rest;
    }
  }

  /** Text shaped like `prefix`, a numeral and something other than
      `suffix` does not read with that suffix. */
  lemma ScanNumberedOther(prefix: string, n: nat, other: string, suffix: string)
    requires other != [] && !IsDigit(other[0]) && !(suffix <= other)
    ensures ScanNumbered(prefix, suffix, prefix + NatStr(n) + other).None?
  {
    var t := prefix + NatStr(n) + other;
    assert t == prefix + (NatStr(n) + other);
    StripPrefixOf(prefix, NatStr(n) + other);
    ScanNatStr(n, other);
  }

  /** A definition is not a forward declaration: after the numeral comes
      `{`, not `;`. */
  lemma DefIsNoForward(i: ScopeId, s: LexicalScope, rest: string)
    ensures ScanNumbered("struct Scope", ";\n", ScopeDef(i, s) + rest).None?
  {
    var body := ParentField(s.parentScope) + (SlotLines(s.decls) + ("};\n" + rest));
    assert ScopeDef(i, s) + rest == "struct Scope" + NatStr(i) + ("{\n" + body);
    var other := "{\n" + body;
    assert other[0] == '{';
    ScanNumberedOther("struct Scope", i, other, ";\n");
  }

  /** `gen_context` round trip: the context text declares exactly records
      `0 .. N-1`, in order, then defines each scope once, in id order, with
      its own parent and its own slots in declaration order. Whatever
      follows it (the `int main` of the program) is left untouched. */
  lemma ContextRoundTrip(sem: SemContext, rest: string)
    requires !("struct Scope" <= rest)
    ensures DecodeContext(ContextText(sem) + rest)
         == (Range(0, |sem.scopes|), Records(sem.scopes, 0, |sem.scopes|), rest)
  {
    var n := |sem.scopes|;
    var defs := ScopeDefs(sem.scopes, 0, n) + rest;
    Assoc(ForwardDecls(0, n), ScopeDefs(sem.scopes, 0, n), rest);
    if n == 0 {
      assert defs == rest;
      ScanNumberedMiss("struct Scope", ";\n", rest);
    } else {
      ScopeDefsCons(sem.scopes, 0, n);
      Assoc(ScopeDef(0, sem.scopes[0]), ScopeDefs(sem.scopes, 1, n), rest);
      DefIsNoForward(0, sem.scopes[0], ScopeDefs(sem.scopes, 1, n) + rest);
    }
    ForwardsRoundTrip(0, n, defs);
    NoRecordAhead(rest);
    DefsRoundTrip(sem.scopes, 0, n, rest);
  }

  // ------------------------------------------------------ call convention

  function ScanParam(t: string): (r: Option<(nat, string)>)
    ensures r.Some? ==> |r.value.1| < |t|
  {
    var a :- StripPrefix(", FNValue param", t);
    ScanNat(a)
  }

  /** Reads parameter declarations until the text stops starting with
      one. */
  function DecodeParams(t: string): (r: (seq<nat>, string))
    decreases |t|
  {
    match ScanParam(t)
    case None => ([], t)
    case Some(p) =>
      var more := DecodeParams(p.1);
      ([p.0] + more.0, more.1)
  }

  /** A signature: the environment pointer, then the numbers of the
      `FNValue` parameters it declares. */
  function DecodeParamList(t: string): Option<(seq<nat>, string)>
  {
    var a :- StripPrefix("void *parent_scope", t);
    Some(DecodeParams(a))
  }

  lemma {:induction false} ParamDeclsCons(lo: nat, hi: nat)
    requires lo < hi
    ensures ParamDecls(lo, hi) == ParamDecl(lo) + ParamDecls(lo + 1, hi)
    decreases hi
  {
    if lo + 1 < hi {
      ParamDeclsCons(lo, hi - 1);
    }
  }

  /** What may follow a parameter list: no digit (it would extend the last
      numeral) and no further parameter. */
  predicate EndsParams(rest: string)
  {
    (rest == [] || !IsDigit(rest[0])) && !(", FNValue param" <= rest)
  }

  lemma {:induction false} ParamsRoundTrip(lo: nat, hi: nat, rest: string)
    requires EndsParams(rest)
    ensures DecodeParams(ParamDecls(lo, hi) + rest) == (Range(lo, hi), rest)
    decreases hi - lo
  {
    if lo < hi {
      ParamDeclsCons(lo, hi);
      var tail := ParamDecls(lo + 1, hi) + rest;
      assert ParamDecls(lo, hi) + rest == ", FNValue param" + (NatStr(lo) + tail);
      StripPrefixOf(", FNValue param", NatStr(lo) + tail);
      if lo + 1 < hi {
        ParamDeclsCons(lo + 1, hi);
        assert tail[0] == ',';
      } else {
        assert tail == rest;
      }
      ScanNatStr(lo, tail);
      ParamsRoundTrip(lo + 1, hi, rest);
    } else {
      assert ParamDecls(lo, hi) + rest == rest;
    }
  }

  /** `param_list_for_arg_count(n)` declares the environment pointer and
      exactly the parameters `param0` .. `param{n-1}`, in order. */
  lemma ParamListRoundTrip(n: nat, rest: string)
    requires EndsParams(rest)
    ensures DecodeParamList(ParamList(n) + rest) == Some((Range(0, n), rest))
  {
    assert ParamList(n) + rest == "void *parent_scope" + (ParamDecls(0, n) + rest);
    StripPrefixOf("void *parent_scope", ParamDecls(0, n) + rest);
    ParamsRoundTrip(0, n, rest);
  }

  /** Two signatures are the same text exactly when they have the same
      number of parameters. */
  lemma ParamListInjective(a: nat, b: nat)
    ensures ParamList(a) == ParamList(b) <==> a == b
  {
    ParamListRoundTrip(a, "");
    ParamListRoundTrip(b, "");
    assert ParamList(a) + "" == ParamList(a);
    assert ParamList(b) + "" == ParamList(b);
    assert |Range(0, a)| == a && |Range(0, b)| == b;
  }

  // ------------------------------------------------------------ slot paths

  /** Counts the `parent->` dereferences at the front of `t`. */
  function CountHops(t: string): (r: (nat, string))
    ensures |r.1| <= |t|
    decreases |t|
  {
    if "parent->" <= t then
      var more := CountHops(t[8..]);
      (1 + more.0, more.1)
    else (0, t)
  }

  /** A whole slot access, `scope{s}->` then hops then `var{d}`: the
      record it starts from, the number of parent links it follows and the
      slot it reads. `None` for anything else, such as a global access. */
  function DecodeSlotPath(t: string): Option<(ScopeId, nat, DeclId)>
  {
    var s :- ScanNumbered("scope", "->", t);
    var h := CountHops(s.1);
    var a :- StripPrefix("var", h.1);
    var d :- ScanNat(a);
    if d.1 != [] then None else Some((s.0, h.0, d.0))
  }

  lemma {:induction false} CountHopsOf(k: nat, rest: string)
    requires !("parent->" <= rest)
    ensures CountHops(Repeat("parent->", k) + rest) == (k, rest)
    decreases k
  {
    var t := Repeat("parent->", k) + rest;
    if k > 0 {
      assert t == "parent->" + (Repeat("parent->", k - 1) + rest);
      StripPrefixOf("parent->", Repeat("parent->", k - 1) + rest);
      CountHopsOf(k - 1, rest);
    } else {
      assert t == rest;
    }
  }

  /** The identifier rule's slot path reads back as its start record, its
      hop count and its slot. */
  lemma SlotPathRoundTrip(scope: ScopeId, hops: nat, decl: DeclId)
    ensures DecodeSlotPath(SlotPath(scope, hops, decl)) == Some((scope, hops, decl))
  {
    var tail := "var" + NatStr(decl);
    var after := Repeat("parent->", hops) + tail;
    assert SlotPath(scope, hops, decl) == "scope" + NatStr(scope) + "->" + after;
    assert !("->" == []) && !IsDigit("->"[0]);
    ScanNumberedOf("scope", scope, "->", after);
    assert !("parent->" <= tail) by {
      assert tail[0] == 'v';
    }
    CountHopsOf(hops, tail);
    StripPrefixOf("var", NatStr(decl));
    ScanNatStr(decl, []);
    assert NatStr(decl) + [] == NatStr(decl);
  }

  /** One parameter copy at the top of a closure body,
      `scope{f}->var{d}=param{i};` and a line break: the record, the slot
      and the argument number. */
  function DecodeParamCopy(t: string): Option<(ScopeId, DeclId, nat, string)>
  {
    var s :- ScanNumbered("scope", "->var", t);
    var d :- ScanNumbered("", "=param", s.1);
    var i :- ScanNumbered("", ";\n", d.1);
    Some((s.0, d.0, i.0, i.1))
  }

  lemma ParamCopyRoundTrip(fnScope: ScopeId, d: DeclId, i: nat, rest: string)
    ensures DecodeParamCopy(SlotPath(fnScope, 0, d) + ParamCopy(i) + rest) == Some((fnScope, d, i, rest))
  {
    var tail3 := ";\n" + rest;
    var tail2 := NatStr(d) + ("=param" + (NatStr(i) + tail3));
    assert SlotPath(fnScope, 0, d) + ParamCopy(i) + rest
        == "scope" + NatStr(fnScope) + "->var" + tail2;
    ScanNumberedOf("scope", fnScope, "->var", tail2);
    ScanNumberedNext(d, "=param", NatStr(i) + tail3);
    Assoc(NatStr(d), "=param", NatStr(i) + tail3);
    ScanNumberedNext(i, ";\n", rest);
    Assoc(NatStr(i), ";\n", rest);
  }

  /** The characters of `t` up to its first `"`, and the text from there
      on. */
  function ScanName(t: string): (r: (string, string))
    ensures r.0 + r.1 == t
    decreases |t|
  {
    if t == [] || t[0] == '"' then ([], t)
    else
      var more := ScanName(t[1..]);
      ([t[0]] + more.0, more.1)
  }

  lemma {:induction false} ScanNameOf(name: string, rest: string)
    requires '"' !in name && rest != [] && rest[0] == '"'
    ensures ScanName(name + rest) == (name, rest)
    decreases |name|
  {
    if name != [] {
      assert (name + rest)[0] == name[0];
      assert (name + rest)[1..] == name[1..] + rest;
      ScanNameOf(name[1..], rest);
      assert [name[0]] + name[1..] == name;
    } else {
      assert name + rest == rest;
    }
  }

  /** A named property access, `->props["name"]`: the name, and the text
      after the access. */
  function DecodeNamedProp(t: string): Option<(string, string)>
  {
    var a :- StripPrefix("->props[\"", t);
    var n := ScanName(a);
    var b :- StripPrefix("\"]", n.1);
    Some((n.0, b))
  }

  /** A named property access reads back as its name, for any name without
      a double quote (every identifier name). */
  lemma NamedPropRoundTrip(name: string, rest: string)
    requires '"' !in name
    ensures DecodeNamedProp(NamedProp(name) + rest) == Some((name, rest))
  {
    var close := "\"]" + rest;
    Assoc("->props[\"" + name, "\"]", rest);
    Assoc("->props[\"", name, close);
    StripPrefixOf("->props[\"", name + close);
    ScanNameOf(name, close);
    StripPrefixOf("\"]", rest);
  }

  /** A global-object access is not a slot path. */
  lemma GlobalIsNoSlot(name: string)
    ensures DecodeSlotPath("global()" + NamedProp(name)).None?
  {
    var t := "global()" + NamedProp(name);
    assert t[0] == 'g';
  }

  // ---------------------------------------------------------- scope entry

  /** `Scope{n} *scope{n} = new Scope{n}();` and a line break, with the
      three numerals equal. */
  function DecodeRecordAlloc(t: string): Option<(ScopeId, string)>
  {
    var a :- ScanNumbered("Scope", " *scope", t);
    var b :- ScanNumbered("", " = new Scope", a.1);
    var c :- ScanNumbered("", "();\n", b.1);
    if a.0 == b.0 && b.0 == c.0 then Some((a.0, c.1)) else None
  }

  /** `scope{n}->parent = scope{m};` and a line break. */
  function DecodeParentLink(t: string): Option<(ScopeId, ScopeId, string)>
  {
    var a :- ScanNumbered("scope", "->parent = scope", t);
    var b :- ScanNumbered("", ";\n", a.1);
    Some((a.0, b.0, b.1))
  }

  /** A scope entry: the record it allocates, the record it links it to,
      and the text after it. The allocation and the link must name the same
      record. */
  function DecodeScopeEntry(t: string): Option<(ScopeId, ScopeId, string)>
  {
    var a :- DecodeRecordAlloc(t);
    var l :- DecodeParentLink(a.1);
    if l.0 != a.0 then None else Some((a.0, l.1, l.2))
  }

  lemma RecordAllocRoundTrip(inner: ScopeId, rest: string)
    ensures DecodeRecordAlloc(RecordAlloc(inner) + rest) == Some((inner, rest))
  {
    var n := NatStr(inner);
    var head := "Scope" + n + " *scope";
    var t1 := n + "();\n" + rest;
    var t0 := n + " = new Scope" + t1;
    Assoc(head + n + " = new Scope" + n, "();\n", rest);
    Assoc(n, "();\n", rest);
    Assoc(head + n + " = new Scope", n, "();\n" + rest);
    Assoc(head + n, " = new Scope", t1);
    Assoc(head, n, " = new Scope" + t1);
    Assoc(n, " = new Scope", t1);
    ScanNumberedOf("Scope", inner, " *scope", t0);
    ScanNumberedNext(inner, " = new Scope", t1);
    ScanNumberedNext(inner, "();\n", rest);
  }

  lemma ParentLinkRoundTrip(inner: ScopeId, outer: ScopeId, rest: string)
    ensures DecodeParentLink(ParentLink(inner, outer) + rest) == Some((inner, outer, rest))
  {
    var head := "scope" + NatStr(inner) + "->parent = scope";
    var t0 := NatStr(outer) + ";\n" + rest;
    Assoc(head + NatStr(outer), ";\n", rest);
    Assoc(head, NatStr(outer), ";\n" + rest);
    Assoc(NatStr(outer), ";\n", rest);
    ScanNumberedOf("scope", inner, "->parent = scope", t0);
    ScanNumberedNext(outer, ";\n", rest);
  }

  /** `init_scope`'s text reads back as "allocate a record of `inner` and
      make the record of `outer` its parent". */
  lemma ScopeEntryRoundTrip(inner: ScopeId, outer: ScopeId, rest: string)
    ensures DecodeScopeEntry(ScopeEntry(inner, outer) + rest) == Some((inner, outer, rest))
  {
    var link := ParentLink(inner, outer) + rest;
    assert ScopeEntry(inner, outer) + rest == RecordAlloc(inner) + link;
    RecordAllocRoundTrip(inner, link);
    ParentLinkRoundTrip(inner, outer, rest);
  }
}
