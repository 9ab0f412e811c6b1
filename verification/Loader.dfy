/** The loader of images: it counts what an image holds, allocates a heap, and lays the objects out in it. */
module Loader {
  import opened Wrappers
  import opened HeapModel
  import opened HeapGraph
  import opened HeapObject
  import opened Image

  const W := 8

  // ---- What loading is to give ----

  function ObjWords(o: Obj): nat {
    match o
    case Fix(_, fields) => 1 + |fields|
    case Raw(_, bytes) => 1 + (|bytes| + W - 1) / W
  }

  /** Where the k-th object goes when the first goes to `base`; after the last, where the objects end. */
  function At(objs: seq<Obj>, base: nat, k: nat): (a: nat)
    requires k <= |objs|
    ensures a >= base + k
  {
    if k == 0 then base else At(objs, base, k - 1) + ObjWords(objs[k-1])
  }

  /** Every reference is to one of the objects before its own, or to that object itself. */
  predicate Reaching(objs: seq<Obj>) {
    forall k, i :: 0 <= k < |objs| && objs[k].Fix? && 0 <= i < |objs[k].fields| ==> InReach(objs[k].fields[i], k)
  }

  predicate InReach(f: Field, k: nat) {
    f.Back? ==> f.diff <= k
  }

  function FieldWord(f: Field, objs: seq<Obj>, base: nat, k: nat): Word
    requires k <= |objs| && InReach(f, k)
  {
    match f
    case Val(typ, n) => Imm((2 + 4 * typ + 256 * n) % WORD)
    case Back(diff) => Ref(At(objs, base, k - diff))
  }

  /** Bytes as they lie in a word, lowest first. */
  function Packed(bytes: seq<Byte>): nat {
    if bytes == [] then 0 else bytes[0] + 256 * Packed(bytes[1..])
  }

  /** The bytes of a raw object that fall in its j-th word. */
  function Chunk(bytes: seq<Byte>, j: nat): seq<Byte>
    requires j < (|bytes| + W - 1) / W
  {
    bytes[j * W..if |bytes| < (j + 1) * W then |bytes| else (j + 1) * W]
  }

  /** The words from a on hold these bytes, and zeros behind them. */
  ghost predicate BytesIn(m: seq<Word>, a: nat, bytes: seq<Byte>) {
    && a + (|bytes| + W - 1) / W <= |m|
    && forall j :: 0 <= j < (|bytes| + W - 1) / W ==> m[a+j] == Imm(Packed(Chunk(bytes, j)))
  }

  /** The k-th object as it is to be in the heap. */
  ghost predicate ObjectIn(m: seq<Word>, objs: seq<Obj>, base: nat, k: nat)
    requires Reaching(objs) && k < |objs|
  {
    var o, a := objs[k], At(objs, base, k);
    && a + ObjWords(o) <= |m|
    && match o {
         case Fix(typ, fields) =>
           && m[a] == Header(typ, false, 1 + |fields|)
           && forall i :: 0 <= i < |fields| ==> m[a+1+i] == FieldWord(fields[i], objs, base, k)
         case Raw(typ, bytes) =>
           && m[a] == Header(typ, true, ObjWords(o))
           && BytesIn(m, a + 1, bytes)
       }
  }

  ghost predicate LaidOut(m: seq<Word>, objs: seq<Obj>, base: nat, n: nat)
    requires Reaching(objs) && n <= |objs|
  {
    forall k :: 0 <= k < n ==> ObjectIn(m, objs, base, k)
  }

  lemma {:induction false} AtGrows(objs: seq<Obj>, base: nat, j: nat, k: nat)
    requires j <= k <= |objs|
    ensures At(objs, base, j) <= At(objs, base, k)
    ensures j < k ==> At(objs, base, j) + ObjWords(objs[j]) <= At(objs, base, k)
  {
    if j < k { AtGrows(objs, base, j, k - 1); }
  }

  lemma {:induction false} AtShifts(objs: seq<Obj>, base: nat, k: nat)
    requires k <= |objs|
    ensures At(objs, base, k) == base + At(objs, 0, k)
  {
    if k > 0 { AtShifts(objs, base, k - 1); }
  }

  /** An object that is in place stays there when what follows is written. */
  lemma ObjectStays(m: seq<Word>, m': seq<Word>, objs: seq<Obj>, base: nat, k: nat, limit: nat)
    requires Reaching(objs) && k < |objs| && ObjectIn(m, objs, base, k)
    requires At(objs, base, k) + ObjWords(objs[k]) <= limit <= |m'| && |m| == |m'| && m'[base..limit] == m[base..limit]
    ensures ObjectIn(m', objs, base, k)
  {
    forall q | base <= q < limit ensures m'[q] == m[q] {
      assert m'[q] == m'[base..limit][q-base] == m[base..limit][q-base];
    }
  }

  // ---- The two passes ----

  /** One byte of a number. */
  lemma NatNext(b: seq<Byte>, hp: nat, n: nat)
    requires n < WORD && NatAt(b, hp, n).Some?
    ensures hp < |b| && n * 128 % WORD + b[hp] % 128 < WORD
    ensures var n' := n * 128 % WORD + b[hp] % 128;
            NatAt(b, hp, n) == if b[hp] < 128 then Some((n', hp + 1)) else NatAt(b, hp + 1, n')
  {
  }

  /** get_nat and decode_word: from index start; gives the index behind the number. */
  method GetNat(b: seq<Byte>, start: nat) returns (n: nat, hp: nat)
    requires NatAt(b, start, 0).Some?
    ensures NatAt(b, start, 0) == Some((n, hp))
  {
    hide NatAt;
    n, hp := 0, start;
    var more := true;
    while more
      invariant n < WORD
      invariant NatAt(b, start, 0) == if more then NatAt(b, hp, n) else Some((n, hp))
      decreases more, |b| - hp
    {
      NatNext(b, hp, n);
      n := n * 128 % WORD;
      var i := b[hp];
      hp := hp + 1;
      n := n + i % 128;
      more := i >= 128;
    }
  }

  /** count_fasl_objects on one field: it is skipped. */
  method SkipField(b: seq<Byte>, start: nat) returns (hp: nat)
    requires FieldAt(b, start).Some?
    ensures FieldAt(b, start).value.1 == hp
  {
    hp := start;
    if b[hp] == 0 {
      hp := hp + 2;
    }
    var n;
    n, hp := GetNat(b, hp);
  }

  lemma WordsOfBytes(size: nat)
    ensures size / W + (if size % W != 0 then 2 else 1) == 1 + (size + W - 1) / W
  {
  }

  /** count_fasl_objects on one object, after the byte that says what kind it is. */
  method CountObject(b: seq<Byte>, start: nat) returns (words: nat, hp: nat)
    requires start < |b| && ObjAt(b, start).Some?
    ensures ObjAt(b, start).value.1 == hp && words == ObjWords(ObjAt(b, start).value.0)
  {
    hp := start + 2;
    var size;
    size, hp := GetNat(b, hp);
    if b[start] == 1 {
      words := 1;
      ghost var n, last := size, FieldsAt(b, hp, size).value.1;
      while size > 0
        invariant 0 <= size <= n && hp <= |b| && words == 1 + n - size
        invariant FieldsAt(b, hp, size).Some? && FieldsAt(b, hp, size).value.1 == last
        decreases size
      {
        hp := SkipField(b, hp);
        words := words + 1;
        size := size - 1;
      }
    } else {
      hp := hp + size;
      words := size / W + if size % W != 0 then 2 else 1;
      WordsOfBytes(size);
    }
  }

  /** Where the next of the objects is read, and the rest after it. */
  lemma NextObject(b: seq<Byte>, at: nat, objs: seq<Obj>, n: nat, last: nat)
    requires at < |b| && n <= |objs| && ObjsAt(b, at) == Some((objs[n..], last))
    ensures b[at] == 0 <==> n == |objs|
    ensures b[at] == 0 ==> at == last
    ensures b[at] != 0 ==>
              && ObjAt(b, at).Some? && ObjAt(b, at).value.0 == objs[n]
              && ObjAt(b, at).value.1 < |b| && ObjsAt(b, ObjAt(b, at).value.1) == Some((objs[n+1..], last))
  {
    hide ObjAt;
    assert |objs[n..]| == |objs| - n;
    if b[at] != 0 { assert ObjsAt(b, at).value.0 != []; }
    if n < |objs| { assert objs[n..][0] == objs[n] && objs[n..][1..] == objs[n+1..]; }
  }

  /** count_fasl_objects: how many objects an image holds, and how many words they take. */
  method CountObjects(b: seq<Byte>) returns (n: nat, words: nat, ghost hp: nat)
    requires ObjsAt(b, 0).Some?
    ensures n == |ObjsAt(b, 0).value.0| && words == At(ObjsAt(b, 0).value.0, 0, n) && hp == ObjsAt(b, 0).value.1
  {
    hide ObjAt, ObjsAt;
    ghost var objs, last := ObjsAt(b, 0).value.0, ObjsAt(b, 0).value.1;
    assert objs[0..] == objs;
    var at: nat := 0;
    n, words := 0, 0;
    NextObject(b, at, objs, n, last);
    while b[at] != 0
      invariant at < |b| && n <= |objs| && ObjsAt(b, at) == Some((objs[n..], last))
      invariant words == At(objs, 0, n)
      decreases |b| - at
    {
      NextObject(b, at, objs, n, last);
      var size;
      size, at := CountObject(b, at);
      words := words + size;
      n := n + 1;
    }
    NextObject(b, at, objs, n, last);
    hp := at;
  }

  /** Where the objects so far are noted. */
  ghost predicate Noted(m: seq<Word>, ptrs: nat, objs: seq<Obj>, base: nat, n: nat)
    requires n <= |objs|
  {
    ptrs + n <= base <= |m| && forall k :: 0 <= k < n ==> m[ptrs+k] == Ref(At(objs, base, k))
  }

  /** decode_field: writes the field at index hp of the image to fp. */
  method DecodeField(b: seq<Byte>, start: nat, mem: array<Word>, ptrs: nat, pos: nat, fp: nat,
                     ghost objs: seq<Obj>, ghost base: nat)
    returns (hp: nat)
    requires FieldAt(b, start).Some? && pos < |objs| && InReach(FieldAt(b, start).value.0, pos)
    requires Noted(mem[..], ptrs, objs, base, pos + 1) && base <= fp < mem.Length
    modifies mem
    ensures FieldAt(b, start).value.1 == hp
    ensures mem[..] == old(mem[..])[fp := FieldWord(FieldAt(b, start).value.0, objs, base, pos)]
  {
    hp := start;
    if b[hp] == 0 {
      hp := hp + 1;
      var typ := b[hp];
      hp := hp + 1;
      var n;
      n, hp := GetNat(b, hp);
      mem[fp] := Imm((2 + 4 * typ + 256 * n) % WORD);
    } else {
      var diff;
      diff, hp := GetNat(b, hp);
      assert mem[..][ptrs + (pos - diff)] == Ref(At(objs, base, pos - diff));
      mem[fp] := mem[ptrs + pos - diff];
    }
  }

  /** The fields of an object, from index hp on. */
  method DecodeFields(b: seq<Byte>, start: nat, size: nat, mem: array<Word>, ptrs: nat, pos: nat, fp: nat,
                      ghost objs: seq<Obj>, ghost base: nat)
    returns (hp: nat)
    requires start <= |b| && FieldsAt(b, start, size).Some? && pos < |objs|
    requires forall i :: 0 <= i < size ==> InReach(FieldsAt(b, start, size).value.0[i], pos)
    requires Noted(mem[..], ptrs, objs, base, pos + 1) && base <= fp && fp + size <= mem.Length
    modifies mem
    ensures FieldsAt(b, start, size).value.1 == hp
    ensures forall i :: 0 <= i < size ==> mem[fp+i] == FieldWord(FieldsAt(b, start, size).value.0[i], objs, base, pos)
    ensures mem[..fp] == old(mem[..fp]) && mem[fp+size..] == old(mem[fp+size..])
  {
    ghost var fields, last := FieldsAt(b, start, size).value.0, FieldsAt(b, start, size).value.1;
    hp := start;
    var i := 0;
    while i < size
      invariant 0 <= i <= size && hp <= |b| && FieldsAt(b, hp, size - i) == Some((fields[i..], last))
      invariant forall k :: 0 <= k < i ==> mem[fp+k] == FieldWord(fields[k], objs, base, pos)
      invariant mem[..fp] == old(mem[..fp]) && mem[fp+size..] == old(mem[fp+size..])
      invariant Noted(mem[..], ptrs, objs, base, pos + 1)
    {
      ghost var f, was := FieldAt(b, hp).value.0, mem[..];
      assert fields[i..][0] == fields[i] && fields[i..][1..] == fields[i+1..];
      assert f == fields[i];
      hp := DecodeField(b, hp, mem, ptrs, pos, fp + i, objs, base);
      NotedStays(was, mem[..], ptrs, objs, base, pos + 1);
      i := i + 1;
    }
  }

  lemma NotedStays(m: seq<Word>, m': seq<Word>, ptrs: nat, objs: seq<Obj>, base: nat, n: nat)
    requires n <= |objs| && Noted(m, ptrs, objs, base, n) && |m'| == |m|
    requires forall q :: 0 <= q < base ==> m'[q] == m[q]
    ensures Noted(m', ptrs, objs, base, n)
  {
  }

  /** The words of a raw object, whose bytes are at index hp; what is left of the last one is zero. */
  method CopyBytes(b: seq<Byte>, hp: nat, size: nat, mem: array<Word>, fp: nat)
    requires hp + size <= |b| && fp + (size + W - 1) / W <= mem.Length
    modifies mem
    ensures BytesIn(mem[..], fp, b[hp..hp+size])
    ensures mem[..fp] == old(mem[..fp]) && mem[fp+(size+W-1)/W..] == old(mem[fp+(size+W-1)/W..])
  {
    var words := (size + W - 1) / W;
    var bytes := b[hp..hp+size];
    for j := 0 to words
      invariant forall k :: 0 <= k < j ==> mem[fp+k] == Imm(Packed(Chunk(bytes, k)))
      invariant mem[..fp] == old(mem[..fp]) && mem[fp+words..] == old(mem[fp+words..])
    {
      mem[fp+j] := Imm(Packed(Chunk(bytes, j)));
    }
  }

  /** deserialize on an object with fields, after its kind. */
  method LoadFix(b: seq<Byte>, start: nat, mem: array<Word>, ptrs: nat, me: nat, base: nat, a: nat,
          ghost objs: seq<Obj>)
    returns (hp: nat, fp: nat)
    requires me < |objs| && ObjAt(b, start).Some? && ObjAt(b, start).value.0 == objs[me] && Reaching(objs)
          && objs[me].Fix?
    requires Noted(mem[..], ptrs, objs, base, me + 1) && At(objs, base, me + 1) <= mem.Length && a == At(objs, base, me)
    modifies mem
    ensures ObjAt(b, start).value.1 == hp && fp == At(objs, base, me + 1)
    ensures ObjectIn(mem[..], objs, base, me)
    ensures mem[..a] == old(mem[..a]) && mem[fp..] == old(mem[fp..])
  {
    hide NatAt, FieldAt, FieldsAt, FieldWord;
    ghost var was := mem[..];
    var typ, size := b[start+1], 0;
    size, hp := GetNat(b, start + 2);
    mem[a] := Header(typ, false, size + 1);
    NotedStays(was, mem[..], ptrs, objs, base, me + 1);
    ghost var first := hp;
    hp := DecodeFields(b, hp, size, mem, ptrs, me, a + 1, objs, base);
    fp := a + 1 + size;
    assert mem[..a+1][a] == Header(typ, false, size + 1);
    assert mem[..a] == mem[..a+1][..a];
  }

  /** deserialize on a raw object, after its kind. */
  method LoadRaw(b: seq<Byte>, start: nat, mem: array<Word>, me: nat, base: nat, a: nat, ghost objs: seq<Obj>)
    returns (hp: nat, fp: nat)
    requires me < |objs| && ObjAt(b, start).Some? && ObjAt(b, start).value.0 == objs[me] && Reaching(objs)
          && objs[me].Raw?
    requires At(objs, base, me + 1) <= mem.Length && a == At(objs, base, me)
    modifies mem
    ensures ObjAt(b, start).value.1 == hp && fp == At(objs, base, me + 1)
    ensures ObjectIn(mem[..], objs, base, me)
    ensures mem[..a] == old(mem[..a]) && mem[fp..] == old(mem[fp..])
  {
    hide NatAt, FieldAt, FieldsAt, FieldWord;
    var typ, size := b[start+1] % 32, 0;
    size, hp := GetNat(b, start + 2);
    var words := (size + W - 1) / W;
    mem[a] := Header(typ, true, words + 1);
    CopyBytes(b, hp, size, mem, a + 1);
    hp := hp + size;
    fp := a + 1 + words;
    assert mem[..a+1][a] == Header(typ, true, words + 1);
    assert mem[..a] == mem[..a+1][..a];
  }

  /** One turn of deserialize's loop: the next object is noted and laid out. */
  method LoadNext(b: seq<Byte>, start: nat, mem: array<Word>, ptrs: nat, me: nat, base: nat, a: nat,
          ghost objs: seq<Obj>)
    returns (hp: nat, fp: nat)
    requires me < |objs| && ObjAt(b, start).Some? && ObjAt(b, start).value.0 == objs[me] && Reaching(objs)
    requires ptrs + me < base && a == At(objs, base, me) && At(objs, base, me + 1) <= mem.Length
    requires LaidOut(mem[..], objs, base, me) && Noted(mem[..], ptrs, objs, base, me)
    modifies mem
    ensures ObjAt(b, start).value.1 == hp && fp == At(objs, base, me + 1)
    ensures LaidOut(mem[..], objs, base, me + 1) && Noted(mem[..], ptrs, objs, base, me + 1)
    ensures mem[..ptrs] == old(mem[..ptrs]) && mem[fp..] == old(mem[fp..])
  {
    hide ObjAt, FieldWord, ObjectIn, LaidOut, ObjWords, Reaching;
    ghost var was := mem[..];
    KindIs(b, start, objs[me]);
    mem[ptrs+me] := Ref(a);
    ghost var noted := mem[..];
    NotedOne(was, noted, ptrs, objs, base, me);
    if b[start] == 1 {
      hp, fp := LoadFix(b, start, mem, ptrs, me, base, a, objs);
    } else {
      hp, fp := LoadRaw(b, start, mem, me, base, a, objs);
    }
    Placed(was, noted, mem[..], ptrs, objs, base, me);
    assert mem[..ptrs] == mem[..a][..ptrs];
  }

  lemma NotedOne(was: seq<Word>, noted: seq<Word>, ptrs: nat, objs: seq<Obj>, base: nat, me: nat)
    requires me < |objs| && ptrs + me < base <= |was| && Noted(was, ptrs, objs, base, me)
    requires noted == was[ptrs+me := Ref(At(objs, base, me))]
    ensures Noted(noted, ptrs, objs, base, me + 1)
  {
  }

  /** deserialize: lays the objects of an image out from fp, and notes where they are from ptrs on.  It ends where
      count_fasl_objects does. */
  method Deserialize(b: seq<Byte>, mem: array<Word>, ptrs: nat, nobjs: nat, base: nat)
    returns (fp: nat, ghost hp: nat)
    requires ObjsAt(b, 0).Some? && nobjs == |ObjsAt(b, 0).value.0| && Reaching(ObjsAt(b, 0).value.0)
    requires ptrs + nobjs <= base && At(ObjsAt(b, 0).value.0, base, nobjs) <= mem.Length
    modifies mem
    ensures var objs := ObjsAt(b, 0).value.0;
            && LaidOut(mem[..], objs, base, nobjs) && Noted(mem[..], ptrs, objs, base, nobjs)
            && fp == At(objs, base, nobjs)
    ensures hp == ObjsAt(b, 0).value.1
    ensures mem[..ptrs] == old(mem[..ptrs]) && mem[fp..] == old(mem[fp..])
  {
    hide ObjAt, ObjsAt, FieldWord, ObjectIn, Reaching, ObjWords, Noted;
    ghost var objs, last := ObjsAt(b, 0).value.0, ObjsAt(b, 0).value.1;
    var at: nat, me: nat := 0, 0;
    fp := base;
    ghost var top := At(objs, base, nobjs);
    assert Noted(mem[..], ptrs, objs, base, 0) by { NotedNone(mem[..], ptrs, objs, base); }
    assert objs[0..] == objs;
    while me < nobjs
      invariant 0 <= me <= nobjs && at < |b| && ObjsAt(b, at) == Some((objs[me..], last))
      invariant fp == At(objs, base, me) && LaidOut(mem[..], objs, base, me) && Noted(mem[..], ptrs, objs, base, me)
      invariant mem[..ptrs] == old(mem[..ptrs])
      invariant mem[top..] == old(mem[top..])
    {
      NextObject(b, at, objs, me, last);
      AtGrows(objs, base, me + 1, nobjs);
      ghost var was := mem[..];
      at, fp := LoadNext(b, at, mem, ptrs, me, base, fp, objs);
      assert mem[top..] == mem[fp..][top-fp..];
      assert was[top..] == was[fp..][top-fp..];
      me := me + 1;
    }
    NextObject(b, at, objs, me, last);
    hp := at;
  }

  lemma NotedNone(m: seq<Word>, ptrs: nat, objs: seq<Obj>, base: nat)
    requires ptrs <= base <= |m|
    ensures Noted(m, ptrs, objs, base, 0)
  {
  }

  lemma KindIs(b: seq<Byte>, i: nat, o: Obj)
    requires ObjAt(b, i).Some? && ObjAt(b, i).value.0 == o
    ensures i < |b| && (b[i] == 1 <==> o.Fix?) && (b[i] == 2 <==> o.Raw?)
  {
    hide NatAt, FieldsAt;
  }

  lemma Placed(was: seq<Word>, noted: seq<Word>, m: seq<Word>, ptrs: nat, objs: seq<Obj>, base: nat, me: nat)
    requires Reaching(objs) && me < |objs| && LaidOut(was, objs, base, me) && ObjectIn(m, objs, base, me)
    requires ptrs + me < base <= At(objs, base, me) <= |was| == |noted| == |m|
    requires Noted(was, ptrs, objs, base, me) && noted == was[ptrs+me := Ref(At(objs, base, me))]
    requires m[..At(objs, base, me)] == noted[..At(objs, base, me)]
    ensures LaidOut(m, objs, base, me + 1) && Noted(m, ptrs, objs, base, me + 1)
  {
    hide ObjectIn;
    var limit := At(objs, base, me);
    forall q | 0 <= q < limit ensures m[q] == noted[q] {
      assert m[q] == m[..limit][q] == noted[..limit][q];
    }
    assert m[base..limit] == was[base..limit];
    forall k | 0 <= k < me ensures ObjectIn(m, objs, base, k) {
      AtGrows(objs, base, k, me);
      InRange(was, objs, base, k);
      ObjectStays(was, m, objs, base, k, limit);
    }
  }

  lemma InRange(m: seq<Word>, objs: seq<Obj>, base: nat, k: nat)
    requires Reaching(objs) && k < |objs| && ObjectIn(m, objs, base, k)
    ensures At(objs, base, k) + ObjWords(objs[k]) <= |m|
  {
  }

  // ---- The heap after loading ----

  /** Every reference is to an object before its own. */
  predicate Earlier(objs: seq<Obj>) {
    forall k, i :: 0 <= k < |objs| && objs[k].Fix? && 0 <= i < |objs[k].fields| ==> !SelfReference(objs[k].fields[i])
  }

  predicate SelfReference(f: Field) {
    f == Back(0)
  }

  ghost predicate Loaded(m: seq<Word>, objs: seq<Obj>, base: nat) {
    Reaching(objs) && LaidOut(m, objs, base, |objs|) && At(objs, base, |objs|) <= |m|
  }

  ghost function Places(objs: seq<Obj>, base: nat, k: nat): set<int>
    requires k <= |objs|
  {
    set j: nat | k <= j < |objs| :: At(objs, base, j)
  }

  lemma HeaderIn(m: seq<Word>, objs: seq<Obj>, base: nat, k: nat)
    requires Reaching(objs) && k < |objs| && ObjectIn(m, objs, base, k)
    ensures var a := At(objs, base, k);
            a + ObjWords(objs[k]) <= |m| && m[a].Header? && m[a].size == ObjWords(objs[k])
  {
    hide BytesIn, FieldWord;
  }

  /** One more object in front of tiles. */
  lemma TileBefore(m: seq<Word>, lo: int, next: int, hi: int)
    requires 0 <= lo < next <= hi && Tiled(m, next, hi) && m[lo].Header? && m[lo].size == next - lo
    ensures Tiled(m, lo, hi) && Starts(m, lo, hi) == {lo} + Starts(m, next, hi)
  {
  }

  lemma PlacesBefore(objs: seq<Obj>, base: nat, k: nat)
    requires k < |objs|
    ensures Places(objs, base, k) == {At(objs, base, k)} + Places(objs, base, k + 1)
  {
    hide At;
  }

  lemma AtNext(objs: seq<Obj>, base: nat, k: nat)
    requires k < |objs|
    ensures At(objs, base, k + 1) == At(objs, base, k) + ObjWords(objs[k])
    ensures At(objs, base, k) < At(objs, base, k + 1) <= At(objs, base, |objs|)
  {
    AtGrows(objs, base, k + 1, |objs|);
  }

  lemma {:induction false} LoadedTiles(m: seq<Word>, objs: seq<Obj>, base: nat, k: nat)
    requires Loaded(m, objs, base) && k <= |objs|
    ensures Tiled(m, At(objs, base, k), At(objs, base, |objs|))
    ensures Starts(m, At(objs, base, k), At(objs, base, |objs|)) == Places(objs, base, k)
    decreases |objs| - k
  {
    hide ObjectIn, At, Tiled, Starts, Places, ObjWords;
    if k == |objs| {
      NoTiles(m, objs, base);
    } else {
      LoadedTiles(m, objs, base, k + 1);
      assert ObjectIn(m, objs, base, k);
      HeaderIn(m, objs, base, k);
      AtNext(objs, base, k);
      TileBefore(m, At(objs, base, k), At(objs, base, k + 1), At(objs, base, |objs|));
      PlacesBefore(objs, base, k);
    }
  }

  lemma NoTiles(m: seq<Word>, objs: seq<Obj>, base: nat)
    requires At(objs, base, |objs|) <= |m|
    ensures var end := At(objs, base, |objs|);
            Tiled(m, end, end) && Starts(m, end, end) == Places(objs, base, |objs|) == {}
  {
    hide At;
  }

  lemma LoadedObject(m: seq<Word>, objs: seq<Obj>, base: nat, objects: set<int>, k: nat)
    requires Loaded(m, objs, base) && k < |objs| && Earlier(objs) && Places(objs, base, 0) <= objects
    ensures SoundObject(m, objects, At(objs, base, k))
  {
    var o, a := objs[k], At(objs, base, k);
    assert ObjectIn(m, objs, base, k);
    AtGrows(objs, base, k, |objs|);
    if o.Fix? {
      forall p | a < p < a + m[a].size ensures !m[p].Thread? && (m[p].Ref? ==> m[p].adr in objects && m[p].adr < a) {
        var f := o.fields[p-a-1];
        assert m[a+1+(p-a-1)] == FieldWord(f, objs, base, k);
        if f.Back? {
          assert !SelfReference(f);
          AtGrows(objs, base, k - f.diff, k);
        }
      }
    }
  }

  /** An image whose references all go to earlier objects is loaded as a heap the collector can take; with a
      reference of an object to itself it is not. */
  lemma LoadedSound(m: seq<Word>, objs: seq<Obj>)
    requires Loaded(m, objs, |objs| + 1) && m[0] == Header(TTUPLE, true, |objs| + 1)
    ensures Sound(Area(m, 0, At(objs, |objs| + 1, |objs|))) <==> Earlier(objs)
  {
    hide FieldWord, ObjectIn, SoundObject;
    var base := |objs| + 1;
    var a := Area(m, 0, At(objs, base, |objs|));
    LoadedTiles(m, objs, base, 0);
    assert At(objs, base, 0) == base;
    assert a.Objects() == {0} + Places(objs, base, 0);
    if Earlier(objs) {
      forall o | o in a.Objects() ensures SoundObject(m, a.Objects(), o) {
        if o != 0 {
          var k: nat :| k < |objs| && o == At(objs, base, k);
          LoadedObject(m, objs, base, a.Objects(), k);
        } else {
          FirstSound(m, a.Objects());
        }
      }
    } else {
      var k, i :| 0 <= k < |objs| && objs[k].Fix? && 0 <= i < |objs[k].fields| && SelfReference(objs[k].fields[i]);
      SelfUnsound(m, objs, base, a.Objects(), k, i);
      assert At(objs, base, k) in Places(objs, base, 0);
    }
  }

  lemma FirstSound(m: seq<Word>, objects: set<int>)
    requires |m| > 0 && m[0].Header? && m[0].raw && m[0].size <= |m|
    ensures SoundObject(m, objects, 0)
  {
  }

  lemma SelfUnsound(m: seq<Word>, objs: seq<Obj>, base: nat, objects: set<int>, k: nat, i: nat)
    requires Loaded(m, objs, base) && k < |objs| && objs[k].Fix? && i < |objs[k].fields| && objs[k].fields[i] == Back(0)
    ensures !SoundObject(m, objects, At(objs, base, k))
  {
    var a := At(objs, base, k);
    assert ObjectIn(m, objs, base, k);
    assert m[a+1+i] == Ref(a);
  }

  /** The part of OL_new that makes the heap: room for what was counted, twice over, and the pads. */
  method Load(b: seq<Byte>, sandbox: bool) returns (heap: Heap)
    requires ObjsAt(b, 0).Some? && Reaching(ObjsAt(b, 0).value.0) && Earlier(ObjsAt(b, 0).value.0)
    ensures fresh(heap) && fresh(heap.mem) && heap.Valid() && heap.begin == heap.genstart == 0
    ensures heap.sandboxp == sandbox
    ensures var objs := ObjsAt(b, 0).value.0;
            && LaidOut(heap.mem[..], objs, |objs| + 1, |objs|)
            && heap.fp == At(objs, |objs| + 1, |objs|) && heap.end == 2 * (heap.fp + 1) + MEMPAD
  {
    hide ObjAt, ObjsAt, ObjectIn, LaidOut, SoundObject;
    ghost var objs := ObjsAt(b, 0).value.0;
    var nobjs, words;
    ghost var counted, read;
    nobjs, words, counted := CountObjects(b);
    words := words + (nobjs + 2);
    var required := words * 2 + MEMPAD;
    var mem := new Word[required + GCPAD];
    mem[0] := Header(TTUPLE, true, nobjs + 1);
    AtShifts(objs, nobjs + 1, nobjs);
    var fp;
    fp, read := Deserialize(b, mem, 1, nobjs, nobjs + 1);
    assert mem[0] == mem[..1][0];
    heap := new Heap(mem, 0, required, sandbox);
    heap.fp := fp;
    LoadedSound(mem[..], objs);
    assert 0 in heap.Whole().Objects();
  }

  // ---- What the loaded words mean ----

  /** w is an immediate with this type and number: both are read off its bits. */
  ghost predicate Reads(w: Word, typ: nat, n: nat) {
    w.Imm? && 0 <= w.val < WORD && w.val % 4 == 2 && w.val / 4 % 64 == typ && w.val / 256 == n
  }

  /** An immediate is loaded with its type, and its number as far as the word has room for it. */
  lemma ImmediateReads(typ: nat, n: nat, objs: seq<Obj>, base: nat, k: nat)
    requires typ < 64 && k <= |objs|
    ensures Reads(FieldWord(Val(typ, n), objs, base, k), typ, n % 0x100_0000_0000_0000)
    ensures n < 0x100_0000_0000_0000 ==> Reads(FieldWord(Val(typ, n), objs, base, k), typ, n)
  {
    var q, r := n / 0x100_0000_0000_0000, n % 0x100_0000_0000_0000;
    assert 2 + 4 * typ + 256 * n == (2 + 4 * typ + 256 * r) + q * WORD;
    assert 0 <= 2 + 4 * typ + 256 * r < WORD;
    Wraps(2 + 4 * typ + 256 * r, q);
  }

  /** The i-th field of the k-th object, if it is an immediate, has its type and number where the object is. */
  ghost predicate ImmediateRead(m: seq<Word>, objs: seq<Obj>, base: nat, k: nat, i: nat)
    requires k < |objs| && objs[k].Fix? && i < |objs[k].fields|
  {
    var f, a := objs[k].fields[i], At(objs, base, k) + 1 + i;
    f.Val? ==> a < |m| && Reads(m[a], f.typ, f.n % 0x100_0000_0000_0000)
  }

  ghost predicate ImmediatesRead(m: seq<Word>, objs: seq<Obj>, base: nat) {
    forall k, i :: 0 <= k < |objs| && objs[k].Fix? && 0 <= i < |objs[k].fields| ==> ImmediateRead(m, objs, base, k, i)
  }

  lemma LaidOutRead(m: seq<Word>, objs: seq<Obj>, base: nat)
    requires (forall k :: 0 <= k < |objs| ==> ObjOk(objs[k])) && Reaching(objs) && LaidOut(m, objs, base, |objs|)
    ensures ImmediatesRead(m, objs, base)
  {
    hide Reads;
    forall k, i | 0 <= k < |objs| && objs[k].Fix? && 0 <= i < |objs[k].fields|
      ensures ImmediateRead(m, objs, base, k, i)
    {
      assert ObjectIn(m, objs, base, k) && ObjOk(objs[k]) && FieldOk(objs[k].fields[i]);
      assert m[At(objs, base, k)+1+i] == FieldWord(objs[k].fields[i], objs, base, k);
      var f := objs[k].fields[i];
      if f.Val? { ImmediateReads(f.typ, f.n, objs, base, k); }
    }
  }

  /** #false, #true and the empty finite function are loaded as the machine's own. */
  lemma ConstantsLoaded(objs: seq<Obj>, base: nat, k: nat)
    requires k <= |objs|
    ensures FieldWord(Val(13, 0), objs, base, k) == IFALSE && FieldWord(Val(13, 1), objs, base, k) == ITRUE
    ensures FieldWord(Val(13, 3), objs, base, k) == IEMPTY
  {
  }

  function Shifted(v: nat, i: nat): nat {
    if i == 0 then v else Shifted(v / 256, i - 1)
  }

  /** The i-th byte of a word, lowest first. */
  function ByteOf(v: nat, i: nat): nat {
    Shifted(v, i) % 256
  }

  lemma {:induction false} PackedByte(bytes: seq<Byte>, i: nat)
    ensures ByteOf(Packed(bytes), i) == if i < |bytes| then bytes[i] else 0
  {
    if bytes == [] {
      ZeroByte(i);
    } else if i > 0 {
      PackedByte(bytes[1..], i - 1);
      assert Packed(bytes) / 256 == Packed(bytes[1..]);
    }
  }

  lemma {:induction false} ZeroByte(i: nat)
    ensures ByteOf(0, i) == 0
  {
    if i > 0 { ZeroByte(i - 1); }
  }

  /** A heap to be saved: every object refers to objects before it, by their place. */
  datatype Cell = Plain(typ: nat, n: nat) | To(place: nat)

  datatype Saved = Fields(typ: nat, cells: seq<Cell>) | Bytes(typ: nat, bytes: seq<Byte>)

  predicate CellOk(c: Cell, k: nat) {
    match c
    case Plain(typ, n) => typ < 64 && n < 0x100_0000_0000_0000
    case To(place) => place < k < WORD
  }

  predicate SavedOk(o: Saved, k: nat) {
    match o
    case Fields(typ, cells) => typ < 64 && |cells| < MAXINT && forall i :: 0 <= i < |cells| ==> CellOk(cells[i], k)
    case Bytes(typ, bytes) => typ < 32 && |bytes| < MAXINT
  }

  ghost predicate HeapOk(heap: seq<Saved>) {
    forall k :: 0 <= k < |heap| ==> SavedOk(heap[k], k)
  }

  /** render-field: references are written as differences. */
  function RenderCell(c: Cell, k: nat): Field
    requires CellOk(c, k)
  {
    match c
    case Plain(typ, n) => Val(typ, n)
    case To(place) => Back(k - place)
  }

  function Render(o: Saved, k: nat): Obj
    requires SavedOk(o, k)
  {
    match o
    case Fields(typ, cells) => Fix(typ, seq(|cells|, i requires 0 <= i < |cells| => RenderCell(cells[i], k)))
    case Bytes(typ, bytes) => Raw(typ, bytes)
  }

  function RenderAll(heap: seq<Saved>): (r: seq<Obj>)
    requires HeapOk(heap)
    ensures |r| == |heap| && forall k :: 0 <= k < |r| ==> r[k] == Render(heap[k], k)
  {
    seq(|heap|, k requires 0 <= k < |heap| => Render(heap[k], k))
  }

  lemma RenderOk(heap: seq<Saved>)
    requires HeapOk(heap)
    ensures (forall k :: 0 <= k < |heap| ==> ObjOk(RenderAll(heap)[k])) && Reaching(RenderAll(heap))
  {
    var objs := RenderAll(heap);
    forall k | 0 <= k < |heap| ensures ObjOk(objs[k]) {
      assert SavedOk(heap[k], k);
      if heap[k].Fields? {
        forall i | 0 <= i < |objs[k].fields| ensures FieldOk(objs[k].fields[i]) {
          assert CellOk(heap[k].cells[i], k);
        }
      }
    }
    forall k, i | 0 <= k < |objs| && objs[k].Fix? && 0 <= i < |objs[k].fields| ensures InReach(objs[k].fields[i], k) {
      assert SavedOk(heap[k], k) && CellOk(heap[k].cells[i], k);
    }
  }

  /** The k-th object of a heap that was saved, at its address: each field has its type and number, or the address of
      the object that it refers to, and each byte is there, with zeros behind. */
  ghost predicate There(m: seq<Word>, heap: seq<Saved>, base: nat, k: nat)
    requires HeapOk(heap) && k < |heap|
  {
    var objs := RenderAll(heap);
    var a := At(objs, base, k);
    && a + ObjWords(objs[k]) <= |m|
    && match heap[k] {
         case Fields(typ, cells) =>
           && m[a] == Header(typ, false, 1 + |cells|)
           && forall i :: 0 <= i < |cells| ==> CellThere(m[a+1+i], cells[i], objs, base)
         case Bytes(typ, bytes) =>
           && m[a] == Header(typ, true, ObjWords(objs[k]))
           && forall j :: 0 <= j < ObjWords(objs[k]) - 1 ==> BytesThere(m, a, bytes, j)
       }
  }

  ghost predicate AllThere(m: seq<Word>, heap: seq<Saved>, base: nat)
    requires HeapOk(heap)
  {
    forall k :: 0 <= k < |heap| ==> There(m, heap, base, k)
  }

  ghost predicate CellThere(w: Word, c: Cell, objs: seq<Obj>, base: nat) {
    match c
    case Plain(typ, n) => Reads(w, typ, n)
    case To(place) => place < |objs| && w == Ref(At(objs, base, place))
  }

  /** The j-th word behind a holds the j-th eight of these bytes, lowest first, or zeros where there are no more. */
  ghost predicate BytesThere(m: seq<Word>, a: nat, bytes: seq<Byte>, j: nat) {
    a + 1 + j < |m| && BytesOf(m[a+1+j], bytes, j)
  }

  ghost predicate BytesOf(w: Word, bytes: seq<Byte>, j: nat) {
    && w.Imm? && 0 <= w.val < WORD
    && forall i :: 0 <= i < W ==> ByteOf(w.val, i) == if j * W + i < |bytes| then bytes[j * W + i] else 0
  }

  lemma FieldsThere(m: seq<Word>, heap: seq<Saved>, base: nat, k: nat)
    requires HeapOk(heap) && k < |heap| && heap[k].Fields? && Reaching(RenderAll(heap))
    requires ObjectIn(m, RenderAll(heap), base, k)
    ensures There(m, heap, base, k)
  {
    hide Reads;
    var objs := RenderAll(heap);
    var a, cells := At(objs, base, k), heap[k].cells;
    assert SavedOk(heap[k], k);
    forall i | 0 <= i < |cells| ensures CellThere(m[a+1+i], cells[i], objs, base) {
      assert CellOk(cells[i], k) && objs[k].fields[i] == RenderCell(cells[i], k);
      assert m[a+1+i] == FieldWord(objs[k].fields[i], objs, base, k);
      if cells[i].Plain? { ImmediateReads(cells[i].typ, cells[i].n, objs, base, k); }
    }
  }

  function Bound(n: nat): (r: nat) {
    if n == 0 then 1 else 256 * Bound(n - 1)
  }

  lemma {:induction false} PackedBound(bytes: seq<Byte>, n: nat)
    requires |bytes| <= n
    ensures Packed(bytes) < Bound(n)
    decreases n
  {
    if bytes != [] {
      PackedBound(bytes[1..], n - 1);
    } else if n > 0 {
      PackedBound(bytes, n - 1);
    }
  }

  lemma ChunkBytes(bytes: seq<Byte>, j: nat)
    requires j < (|bytes| + W - 1) / W
    ensures BytesOf(Imm(Packed(Chunk(bytes, j))), bytes, j)
  {
    var v := Packed(Chunk(bytes, j));
    PackedBound(Chunk(bytes, j), W);
    assert Bound(W) == WORD by {
      assert Bound(4) == 0x1_0000_0000;
    }
    forall i | 0 <= i < W ensures ByteOf(v, i) == if j * W + i < |bytes| then bytes[j * W + i] else 0 {
      PackedByte(Chunk(bytes, j), i);
    }
  }

  lemma RawThere(m: seq<Word>, heap: seq<Saved>, base: nat, k: nat)
    requires HeapOk(heap) && k < |heap| && heap[k].Bytes? && Reaching(RenderAll(heap))
    requires ObjectIn(m, RenderAll(heap), base, k)
    ensures There(m, heap, base, k)
  {
    hide BytesOf, Packed;
    var objs := RenderAll(heap);
    var a, bytes := At(objs, base, k), heap[k].bytes;
    assert SavedOk(heap[k], k) && objs[k] == Raw(heap[k].typ, bytes);
    forall j | 0 <= j < ObjWords(objs[k]) - 1 ensures BytesThere(m, a, bytes, j) {
      assert m[a+1+j] == Imm(Packed(Chunk(bytes, j)));
      ChunkBytes(bytes, j);
    }
  }

  lemma HeapThere(m: seq<Word>, heap: seq<Saved>, base: nat)
    requires HeapOk(heap) && Reaching(RenderAll(heap)) && LaidOut(m, RenderAll(heap), base, |heap|)
    ensures AllThere(m, heap, base)
  {
    forall k | 0 <= k < |heap| ensures There(m, heap, base, k) {
      assert ObjectIn(m, RenderAll(heap), base, k);
      if heap[k].Fields? { FieldsThere(m, heap, base, k); } else { RawThere(m, heap, base, k); }
    }
  }

  /** A heap that fasl.scm writes is there again once it is loaded: the same objects in the same order, with the same
      immediates and bytes, and every reference to the object it was to. */
  method LoadSaved(saved: seq<Saved>, sandbox: bool) returns (heap: Heap)
    requires HeapOk(saved)
    ensures fresh(heap) && fresh(heap.mem) && heap.sandboxp == sandbox && heap.begin == heap.genstart == 0
    ensures heap.Valid() && heap.fp == At(RenderAll(saved), |saved| + 1, |saved|) && heap.fp + MEMPAD <= heap.end
    ensures AllThere(heap.mem[..], saved, |saved| + 1)
  {
    RenderOk(saved);
    heap := LoadEncoded(RenderAll(saved), sandbox);
    HeapThere(heap.mem[..], saved, |saved| + 1);
  }

  /** What fasl.scm writes for objects that refer to objects before them is loaded as just these objects. */
  method LoadEncoded(objs: seq<Obj>, sandbox: bool) returns (heap: Heap)
    requires (forall k :: 0 <= k < |objs| ==> ObjOk(objs[k])) && Reaching(objs)
    ensures fresh(heap) && fresh(heap.mem) && heap.sandboxp == sandbox && heap.begin == heap.genstart == 0
    ensures heap.Valid() && LaidOut(heap.mem[..], objs, |objs| + 1, |objs|)
    ensures heap.fp == At(objs, |objs| + 1, |objs|) && heap.fp + MEMPAD <= heap.end
    ensures ImmediatesRead(heap.mem[..], objs, |objs| + 1)
  {
    ImageRead(objs);
    forall k, i | 0 <= k < |objs| && objs[k].Fix? && 0 <= i < |objs[k].fields|
      ensures !SelfReference(objs[k].fields[i])
    {
      assert ObjOk(objs[k]) && FieldOk(objs[k].fields[i]);
    }
    heap := Load(SendImage(objs), sandbox);
    LaidOutRead(heap.mem[..], objs, |objs| + 1);
  }
}
