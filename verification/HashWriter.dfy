/** How lib/litmus_test/litmus_test_hash.c writes the vector of a test: a cursor is threaded through
  * the blit functions, first in a dry run that only counts, then in a run that writes.
  */
module HashWriter {
  import opened HashVector

  // ----- Writing at a cursor

  ghost function Bytes(buf: array?<char>): (b: string)
    reads buf
  {
    if buf == null then "" else buf[..]
  }

  /** What a run may write to. */
  ghost function Target(buf: array?<char>, dry: bool): set<object> {
    if dry || buf == null then {} else {buf}
  }

  predicate Room(buf: array?<char>, tgt: nat, n: nat, dry: bool) {
    dry || (buf != null && tgt + n <= buf.Length)
  }

  /** The bytes e have been written at tgt, and nothing else. */
  ghost predicate Wrote(was: string, now: string, tgt: nat, e: string) {
    && tgt + |e| <= |was|
    && now == was[..tgt] + e + was[tgt + |e|..]
  }

  lemma WroteMore(a: string, b: string, c: string, tgt: nat, e: string, f: string)
    requires Wrote(a, b, tgt, e) && Wrote(b, c, tgt + |e|, f)
    ensures Wrote(a, c, tgt, e + f)
  {
    assert b[..tgt + |e|] == a[..tgt] + e;
    assert b[tgt + |e| + |f|..] == a[tgt + |e| + |f|..];
    assert c == (a[..tgt] + e) + f + a[tgt + |e| + |f|..];
    Assoc(a[..tgt], e, f);
  }

  /** The cursor after the bytes e have been written at tgt, or only counted. */
  ghost predicate Advanced(dry: bool, was: string, now: string, tgt: nat, next: nat, e: string) {
    next == tgt + |e| && if dry then now == was else Wrote(was, now, tgt, e)
  }

  lemma AdvancedMore(dry: bool, a: string, b: string, c: string, t: nat, u: nat, v: nat, e: string, f: string)
    requires Advanced(dry, a, b, t, u, e) && Advanced(dry, b, c, u, v, f)
    ensures Advanced(dry, a, c, t, v, e + f)
  {
    if !dry {
      WroteMore(a, b, c, t, e, f);
    }
  }

  lemma AdvancedNone(dry: bool, a: string, t: nat)
    requires dry || t <= |a|
    ensures Advanced(dry, a, a, t, t, "")
  {
    if !dry {
      assert a == a[..t] + "" + a[t..];
    }
  }

  /** v >> 8 * k */
  function Shifted(v: nat, k: nat): nat {
    if k == 0 then v else Shifted(v / 256, k - 1)
  }

  lemma {:induction false} BigEndianAt(v: nat, n: nat, i: nat)
    requires i < n
    ensures BigEndian(v, n)[i] == (Shifted(v, n - 1 - i) % 256) as char
  {
    if i < n - 1 {
      BigEndianAt(v / 256, n - 1, i);
    }
  }

  /** write_be and write_be64 */
  method WriteBe(buf: array<char>, tgt: nat, v: nat, n: nat)
    requires tgt + n <= buf.Length
    modifies buf
    ensures Wrote(old(buf[..]), buf[..], tgt, BigEndian(v, n))
  {
    for i := 0 to n
      invariant forall k :: 0 <= k < i ==> buf[tgt + k] == BigEndian(v, n)[k]
      invariant forall k :: 0 <= k < buf.Length && !(tgt <= k < tgt + i) ==> buf[k] == old(buf[k])
    {
      BigEndianAt(v, n, i);
      buf[tgt + i] := (Shifted(v, n - 1 - i) % 256) as char;
    }
  }

  method BlitInt(buf: array?<char>, tgt: nat, val: nat, dry: bool) returns (next: nat)
    requires Room(buf, tgt, 4, dry)
    modifies Target(buf, dry)
    ensures Advanced(dry, old(Bytes(buf)), Bytes(buf), tgt, next, Int(val))
  {
    if !dry {
      WriteBe(buf, tgt, val, 4);
    }
    return tgt + 4;
  }

  method BlitLong(buf: array?<char>, tgt: nat, val: nat, dry: bool) returns (next: nat)
    requires Room(buf, tgt, 8, dry)
    modifies Target(buf, dry)
    ensures Advanced(dry, old(Bytes(buf)), Bytes(buf), tgt, next, Long(val))
  {
    if !dry {
      WriteBe(buf, tgt, val, 8);
    }
    return tgt + 8;
  }

  method Blit(buf: array?<char>, tgt: nat, src: string, dry: bool) returns (next: nat)
    requires Room(buf, tgt, |src|, dry)
    modifies Target(buf, dry)
    ensures Advanced(dry, old(Bytes(buf)), Bytes(buf), tgt, next, src)
  {
    if !dry {
      for i := 0 to |src|
        invariant forall k :: 0 <= k < i ==> buf[tgt + k] == src[k]
        invariant forall k :: 0 <= k < buf.Length && !(tgt <= k < tgt + i) ==> buf[k] == old(buf[k])
      {
        buf[tgt + i] := src[i];
      }
    }
    return tgt + |src|;
  }

  method BlitStr(buf: array?<char>, tgt: nat, s: Option<string>, dry: bool) returns (next: nat)
    requires Room(buf, tgt, |Str(OrNull(s))|, dry)
    modifies Target(buf, dry)
    ensures Advanced(dry, old(Bytes(buf)), Bytes(buf), tgt, next, Str(OrNull(s)))
    decreases s.None?
  {
    if s.None? {
      next := BlitStr(buf, tgt, Some("<NULL>"), dry);
      return;
    }
    ghost var was := Bytes(buf);
    next := BlitInt(buf, tgt, |s.value|, dry);
    ghost var mid, at := Bytes(buf), next;
    next := Blit(buf, next, s.value, dry);
    AdvancedMore(dry, was, mid, Bytes(buf), tgt, at, next, Int(|s.value|), s.value);
  }

  // ----- Initial states

  method BlitState(buf: array?<char>, tgt: nat, st: State, dry: bool) returns (next: nat)
    requires Room(buf, tgt, |StateBytes(st)|, dry)
    modifies Target(buf, dry)
    ensures Advanced(dry, old(Bytes(buf)), Bytes(buf), tgt, next, StateBytes(st))
  {
    match st {
      case Value(_, value) => next := BlitLong(buf, tgt, value, dry);
      case Unmapped =>
        AdvancedNone(dry, Bytes(buf), tgt);
        next := tgt;
      case IdentityMap =>
        AdvancedNone(dry, Bytes(buf), tgt);
        next := tgt;
      case Alias(name) => next := BlitStr(buf, tgt, name, dry);
      case Attrs(prot, value) => next := BlitAttrs(buf, tgt, prot, value, dry);
      case RegionPin(name, level) => next := BlitTwo(buf, tgt, name, PinLevelStr(level), dry);
      case RegionOffset(name, level) => next := BlitTwo(buf, tgt, name, RelOffsetStr(level), dry);
      case RegionOwn(level) => next := BlitStr(buf, tgt, Some(OwnLevelStr(level)), dry);
    }
  }

  method BlitAttrs(buf: array?<char>, tgt: nat, prot: Prot, value: nat, dry: bool) returns (next: nat)
    requires Room(buf, tgt, |Str(ProtStr(prot))| + 8, dry)
    modifies Target(buf, dry)
    ensures Advanced(dry, old(Bytes(buf)), Bytes(buf), tgt, next, Str(ProtStr(prot)) + Long(value))
  {
    ghost var was := Bytes(buf);
    next := BlitStr(buf, tgt, Some(ProtStr(prot)), dry);
    ghost var mid, at := Bytes(buf), next;
    next := BlitLong(buf, next, value, dry);
    AdvancedMore(dry, was, mid, Bytes(buf), tgt, at, next, Str(ProtStr(prot)), Long(value));
  }

  /** A name and a level, or a name and a type. */
  method BlitTwo(buf: array?<char>, tgt: nat, s: Option<string>, t: string, dry: bool) returns (next: nat)
    requires Room(buf, tgt, |Str(OrNull(s))| + |Str(t)|, dry)
    modifies Target(buf, dry)
    ensures Advanced(dry, old(Bytes(buf)), Bytes(buf), tgt, next, Str(OrNull(s)) + Str(t))
  {
    ghost var was := Bytes(buf);
    next := BlitStr(buf, tgt, s, dry);
    ghost var mid, at := Bytes(buf), next;
    next := BlitStr(buf, next, Some(t), dry);
    AdvancedMore(dry, was, mid, Bytes(buf), tgt, at, next, Str(OrNull(s)), Str(t));
  }

  method BlitVarstate(buf: array?<char>, tgt: nat, v: VarState, dry: bool) returns (next: nat)
    requires Room(buf, tgt, |VarBytes(v)|, dry)
    modifies Target(buf, dry)
    ensures Advanced(dry, old(Bytes(buf)), Bytes(buf), tgt, next, VarBytes(v))
  {
    ghost var was := Bytes(buf);
    next := BlitTwo(buf, tgt, v.varname, TypeStr(v.state), dry);
    ghost var mid, at := Bytes(buf), next;
    next := BlitState(buf, next, v.state, dry);
    AdvancedMore(dry, was, mid, Bytes(buf), tgt, at, next, Str(OrNull(v.varname)) + Str(TypeStr(v.state)), StateBytes(v.state));
  }

  lemma {:induction false} VarsGrow(vs: seq<VarState>, k: nat)
    requires k <= |vs|
    ensures |VarsBytes(vs[..k])| <= |VarsBytes(vs)|
  {
    if k < |vs| {
      VarsGrow(vs[..|vs| - 1], k);
      assert vs[..|vs| - 1][..k] == vs[..k];
    } else {
      assert vs[..k] == vs;
    }
  }

  lemma VarsPrefix(vs: seq<VarState>, k: nat)
    requires k < |vs|
    ensures |VarsBytes(vs[..k])| + |VarBytes(vs[k])| <= |VarsBytes(vs)|
    ensures VarsBytes(vs[..k + 1]) == VarsBytes(vs[..k]) + VarBytes(vs[k])
  {
    var w := vs[..k + 1];
    assert w[..|w| - 1] == vs[..k] && w[|w| - 1] == vs[k];
    VarsGrow(vs, k + 1);
  }

  method BlitVars(buf: array?<char>, tgt: nat, vs: seq<VarState>, dry: bool) returns (next: nat)
    requires Room(buf, tgt, |VarsBytes(vs)|, dry)
    modifies Target(buf, dry)
    ensures Advanced(dry, old(Bytes(buf)), Bytes(buf), tgt, next, VarsBytes(vs))
  {
    ghost var was := Bytes(buf);
    next := tgt;
    AdvancedNone(dry, was, tgt);
    for i := 0 to |vs|
      invariant Advanced(dry, was, Bytes(buf), tgt, next, VarsBytes(vs[..i]))
    {
      ghost var mid, at := Bytes(buf), next;
      VarsPrefix(vs, i);
      next := BlitVarstate(buf, next, vs[i], dry);
      AdvancedMore(dry, was, mid, Bytes(buf), tgt, at, next, VarsBytes(vs[..i]), VarBytes(vs[i]));
    }
    assert vs[..|vs|] == vs;
  }

  method BlitInitState(buf: array?<char>, tgt: nat, vs: seq<VarState>, dry: bool) returns (next: nat)
    requires Room(buf, tgt, 4 + |VarsBytes(vs)|, dry)
    modifies Target(buf, dry)
    ensures Advanced(dry, old(Bytes(buf)), Bytes(buf), tgt, next, Int(|vs|) + VarsBytes(vs))
  {
    ghost var was := Bytes(buf);
    next := BlitInt(buf, tgt, |vs|, dry);
    ghost var mid, at := Bytes(buf), next;
    next := BlitVars(buf, next, vs, dry);
    AdvancedMore(dry, was, mid, Bytes(buf), tgt, at, next, Int(|vs|), VarsBytes(vs));
  }

  // ----- Threads

  /** The two loops that look for the ends of the code. */
  method Search(code: Code, from: nat, ops: set<nat>) returns (i: nat)
    requires from <= |code| && FirstOf(code, from, ops) < |code|
    ensures i == FirstOf(code, from, ops)
  {
    i := from;
    while code[i] !in ops
      invariant from <= i <= FirstOf(code, from, ops)
      decreases |code| - i
    {
      i := i + 1;
    }
  }

  /** __thread_code_has_hint; it stops the machine exactly when the code is malformed. */
  method ThreadCodeHasHint(code: Option<Code>) returns (ok: bool, hint: bool)
    requires CodeFits(code)
    ensures ok <==> CodeWellFormed(code)
    ensures ok && code.Some? ==> hint == (code.value[Stop(code.value)] == OPCODE_LITMUS_HINT)
  {
    if code.None? {
      return true, true;
    }
    var c := code.value;
    var i := 0;
    while i < 1024
      invariant i <= 1024 && i <= Stop(c) && (i < 1024 ==> i < |c|)
    {
      if c[i] == OPCODE_LITMUS_HINT {
        return true, true;
      } else if c[i] == OPCODE_RET {
        return true, false;
      }
      i := i + 1;
    }
    return false, false;
  }

  /** The instructions that are hashed. */
  method FindPayload(c: Code) returns (p: seq<nat>)
    requires CodeFits(Some(c)) && WellFormed(c)
    ensures p == Payload(Some(c))
  {
    var _, hint := ThreadCodeHasHint(Some(c));
    if hint {
      StopAtHint(c);
      var start := Search(c, 0, {OPCODE_LITMUS_HINT});
      var end := Search(c, start + 1, {OPCODE_LITMUS_HINT});
      p := c[start + 1..end];
    } else {
      StopAtReturn(c);
      var i := Search(c, 0, {OPCODE_RET});
      p := c[..i + 1];
    }
  }

  lemma StopAtHint(c: Code)
    requires WellFormed(c) && c[Stop(c)] == OPCODE_LITMUS_HINT
    ensures FirstOf(c, 0, {OPCODE_LITMUS_HINT}) == Stop(c)
  {
  }

  lemma StopAtReturn(c: Code)
    requires WellFormed(c) && c[Stop(c)] != OPCODE_LITMUS_HINT
    ensures FirstOf(c, 0, {OPCODE_RET}) == Stop(c)
  {
  }

  method BlitThreadCode(buf: array?<char>, tgt: nat, code: Option<Code>, dry: bool) returns (next: nat)
    requires CodeFits(code) && CodeWellFormed(code) && Room(buf, tgt, |PayloadBytes(Payload(code))|, dry)
    modifies Target(buf, dry)
    ensures Advanced(dry, old(Bytes(buf)), Bytes(buf), tgt, next, PayloadBytes(Payload(code)))
  {
    if code.None? {
      assert PayloadBytes([]) == Int(0);
      next := BlitInt(buf, tgt, 0, dry);
      return;
    }
    ghost var was := Bytes(buf);
    var p := FindPayload(code.value);
    next := BlitInt(buf, tgt, |p|, dry);
    ghost var mid, at := Bytes(buf), next;
    next := Blit(buf, next, Memory(p), dry);
    AdvancedMore(dry, was, mid, Bytes(buf), tgt, at, next, Int(|p|), Memory(p));
  }

  method BlitThreadHandlers(buf: array?<char>, tgt: nat, h: Option<Handlers>, dry: bool) returns (next: nat)
    requires h.Some? ==> HandlersOk(h.value)
    requires Room(buf, tgt, |HandlersBytes(HandlersView(h))|, dry)
    modifies Target(buf, dry)
    ensures Advanced(dry, old(Bytes(buf)), Bytes(buf), tgt, next, HandlersBytes(HandlersView(h)))
  {
    if h.None? {
      next := BlitInt(buf, tgt, 0, dry);
      return;
    }
    ghost var was, p, q := Bytes(buf), PayloadBytes(Payload(h.value.el0)), PayloadBytes(Payload(h.value.el1));
    next := BlitInt(buf, tgt, 2, dry);
    ghost var mid, at := Bytes(buf), next;
    next := BlitThreadCode(buf, next, h.value.el0, dry);
    AdvancedMore(dry, was, mid, Bytes(buf), tgt, at, next, Int(2), p);
    mid, at := Bytes(buf), next;
    next := BlitThreadCode(buf, next, h.value.el1, dry);
    AdvancedMore(dry, was, mid, Bytes(buf), tgt, at, next, Int(2) + p, q);
  }

  predicate HandlersOk(h: Handlers) {
    CodeFits(h.el0) && CodeFits(h.el1) && CodeWellFormed(h.el0) && CodeWellFormed(h.el1)
  }

  function HandlersView(h: Option<Handlers>): Option<(seq<nat>, seq<nat>)>
    requires h.Some? ==> HandlersOk(h.value)
  {
    if h.None? then None else Some((Payload(h.value.el0), Payload(h.value.el1)))
  }

  method BlitThread(buf: array?<char>, tgt: nat, test: Test, t: nat, dry: bool) returns (next: nat)
    requires test.Valid() && t < |test.threads| && Room(buf, tgt, |ThreadBytes(test.View(t))|, dry)
    modifies Target(buf, dry)
    ensures Advanced(dry, old(Bytes(buf)), Bytes(buf), tgt, next, ThreadBytes(test.View(t)))
  {
    ghost var was, v := Bytes(buf), test.View(t);
    assert test.ThreadOk(t) && test.threads[t] in test.threads;
    var h := if test.handlers.None? then None else Some(test.handlers.value[t]);
    assert h.Some? ==> h.value in test.handlers.value;
    next := BlitThreadCode(buf, tgt, test.threads[t], dry);
    ghost var mid, at := Bytes(buf), next;
    next := BlitThreadHandlers(buf, next, h, dry);
    AdvancedMore(dry, was, mid, Bytes(buf), tgt, at, next, PayloadBytes(v.code), HandlersBytes(v.handlers));
  }

  lemma {:induction false} ThreadsGrow(vs: seq<ThreadView>, k: nat)
    requires k <= |vs|
    ensures |ThreadsBytes(vs[..k])| <= |ThreadsBytes(vs)|
  {
    if k < |vs| {
      ThreadsGrow(vs[..|vs| - 1], k);
      assert vs[..|vs| - 1][..k] == vs[..k];
    } else {
      assert vs[..k] == vs;
    }
  }

  lemma ThreadsPrefix(vs: seq<ThreadView>, k: nat)
    requires k < |vs|
    ensures |ThreadsBytes(vs[..k])| + |ThreadBytes(vs[k])| <= |ThreadsBytes(vs)|
    ensures ThreadsBytes(vs[..k + 1]) == ThreadsBytes(vs[..k]) + ThreadBytes(vs[k])
  {
    var w := vs[..k + 1];
    assert w[..|w| - 1] == vs[..k] && w[|w| - 1] == vs[k];
    ThreadsGrow(vs, k + 1);
  }

  method BlitEachThread(buf: array?<char>, tgt: nat, test: Test, dry: bool) returns (next: nat)
    requires test.Valid() && Room(buf, tgt, |ThreadsBytes(test.Views())|, dry)
    modifies Target(buf, dry)
    ensures Advanced(dry, old(Bytes(buf)), Bytes(buf), tgt, next, ThreadsBytes(test.Views()))
  {
    ghost var was, vs := Bytes(buf), test.Views();
    next := tgt;
    AdvancedNone(dry, was, tgt);
    for i := 0 to |test.threads|
      invariant Advanced(dry, was, Bytes(buf), tgt, next, ThreadsBytes(vs[..i]))
    {
      ghost var mid, at := Bytes(buf), next;
      ThreadsPrefix(vs, i);
      next := BlitThread(buf, next, test, i, dry);
      AdvancedMore(dry, was, mid, Bytes(buf), tgt, at, next, ThreadsBytes(vs[..i]), ThreadBytes(vs[i]));
    }
    assert vs[..|vs|] == vs;
  }

  method BlitThreads(buf: array?<char>, tgt: nat, test: Test, dry: bool) returns (next: nat)
    requires test.Valid() && Room(buf, tgt, 4 + |ThreadsBytes(test.Views())|, dry)
    modifies Target(buf, dry)
    ensures Advanced(dry, old(Bytes(buf)), Bytes(buf), tgt, next, Int(|test.threads|) + ThreadsBytes(test.Views()))
  {
    ghost var was := Bytes(buf);
    next := BlitInt(buf, tgt, |test.threads|, dry);
    ghost var mid, at := Bytes(buf), next;
    next := BlitEachThread(buf, next, test, dry);
    AdvancedMore(dry, was, mid, Bytes(buf), tgt, at, next, Int(|test.threads|), ThreadsBytes(test.Views()));
  }

  // ----- The whole test

  /** blit_test: the dry run returns as many bytes as the other run writes. */
  method BlitTest(buf: array?<char>, tgt: nat, test: Test, dry: bool) returns (next: nat)
    requires test.Valid() && Room(buf, tgt, |Vector(test)|, dry)
    modifies Target(buf, dry)
    ensures Advanced(dry, old(Bytes(buf)), Bytes(buf), tgt, next, Vector(test))
  {
    ghost var was, n := Bytes(buf), Str(OrNull(test.name));
    ghost var i, t := Int(|test.inits|) + VarsBytes(test.inits), Int(|test.threads|) + ThreadsBytes(test.Views());
    next := BlitStr(buf, tgt, test.name, dry);
    ghost var mid, at := Bytes(buf), next;
    next := BlitInitState(buf, next, test.inits, dry);
    AdvancedMore(dry, was, mid, Bytes(buf), tgt, at, next, n, i);
    mid, at := Bytes(buf), next;
    next := BlitThreads(buf, next, test, dry);
    AdvancedMore(dry, was, mid, Bytes(buf), tgt, at, next, n + i, t);
    mid, at := Bytes(buf), next;
    next := BlitStr(buf, next, Some(test.finalCond), dry);
    AdvancedMore(dry, was, mid, Bytes(buf), tgt, at, next, n + i + t, Str(test.finalCond));
  }

  /** The checks of __warn_on_bad_hash: they stop the machine exactly when some code is malformed. */
  method WarnOnBadHash(test: Test) returns (ok: bool)
    requires test.Fits()
    ensures ok <==> test.CodeOk()
  {
    var hint;
    for t := 0 to |test.threads|
      invariant forall u :: 0 <= u < t ==> test.ThreadOk(u)
    {
      assert test.threads[t] in test.threads;
      ok, hint := ThreadCodeHasHint(test.threads[t]);
      if !ok {
        assert !test.ThreadOk(t);
        return;
      }
      if test.handlers.Some? {
        var h := test.handlers.value[t];
        assert h in test.handlers.value;
        ok, hint := ThreadCodeHasHint(h.el0);
        if ok {
          ok, hint := ThreadCodeHasHint(h.el1);
        }
        if !ok {
          assert !test.ThreadOk(t);
          return;
        }
      }
    }
    return true;
  }

  /** The part of litmus_test_hash before SHA-1: it fills a buffer of exactly the right size with the
    * vector of the test. */
  method TestVector(test: Test) returns (ok: bool, buf: array<char>)
    requires test.Fits()
    ensures ok <==> test.CodeOk()
    ensures ok ==> fresh(buf) && buf[..] == Vector(test)
  {
    ok := WarnOnBadHash(test);
    if !ok {
      return false, new char[0];
    }
    var size := BlitTest(null, 0, test, true);
    buf := new char[size];
    var end := BlitTest(buf, 0, test, false);
    assert end == size == buf.Length;
  }
}
