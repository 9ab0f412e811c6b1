/** Serialized images: what the bytes mean, and how they are made. */
module Image {
  import opened Wrappers

  /** Back: a reference to the diff-th object before this one. */
  datatype Field = Val(typ: nat, n: nat) | Back(diff: nat)

  datatype Obj = Fix(typ: nat, fields: seq<Field>) | Raw(typ: nat, bytes: seq<Byte>)

  const WORD := 0x1_0000_0000_0000_0000
  const MAXINT := 0x8000_0000

  // ---- Reading ----

  /** A number, seven bits to a byte, from index i; what was read before it is in acc.  Gives the number and
      the index behind it. */
  function NatAt(b: seq<Byte>, i: nat, acc: nat): (r: Option<(nat, nat)>)
    requires acc < WORD
    ensures r.Some? ==> r.value.0 < WORD && i < r.value.1 <= |b|
    decreases |b| - i
  {
    if i >= |b| then None
    else
      var n := acc * 128 % WORD + b[i] % 128;
      if b[i] < 128 then Some((n, i + 1)) else NatAt(b, i + 1, n)
  }

  function FieldAt(b: seq<Byte>, i: nat): (r: Option<(Field, nat)>)
    ensures r.Some? ==> i < r.value.1 <= |b|
  {
    if i >= |b| then None
    else if b[i] == 0 then
      if i + 1 >= |b| || b[i+1] >= 64 then None
      else
        var n :- NatAt(b, i + 2, 0);
        Some((Val(b[i+1], n.0), n.1))
    else
      var n :- NatAt(b, i, 0);
      Some((Back(n.0), n.1))
  }

  function FieldsAt(b: seq<Byte>, i: nat, size: nat): (r: Option<(seq<Field>, nat)>)
    requires i <= |b|
    ensures r.Some? ==> |r.value.0| == size && i <= r.value.1 <= |b|
    decreases size
  {
    if size == 0 then Some(([], i))
    else
      var first :- FieldAt(b, i);
      var rest :- FieldsAt(b, first.1, size - 1);
      Some(([first.0] + rest.0, rest.1))
  }

  function ObjAt(b: seq<Byte>, i: nat): (r: Option<(Obj, nat)>)
    ensures r.Some? ==> i < r.value.1 <= |b|
  {
    if i + 1 >= |b| then None
    else
      var size :- NatAt(b, i + 2, 0);
      if size.0 >= MAXINT then None
      else if b[i] == 1 && b[i+1] < 64 then
        var fields :- FieldsAt(b, size.1, size.0);
        Some((Fix(b[i+1], fields.0), fields.1))
      else if b[i] == 2 && size.1 + size.0 <= |b| then
        Some((Raw(b[i+1] % 32, b[size.1..size.1+size.0]), size.1 + size.0))
      else None
  }

  /** The objects of an image and the index of the zero that ends it. */
  function ObjsAt(b: seq<Byte>, i: nat): (r: Option<(seq<Obj>, nat)>)
    ensures r.Some? ==> i <= r.value.1 < |b| && b[r.value.1] == 0
    decreases |b| - i
  {
    if i >= |b| then None
    else if b[i] == 0 then Some(([], i))
    else
      var first :- ObjAt(b, i);
      var rest :- ObjsAt(b, first.1);
      Some(([first.0] + rest.0, rest.1))
  }

  /** The number that bytes stand for: the low seven bits of each, those of the first byte on top. */
  function Sevens(bytes: seq<Byte>): nat {
    if bytes == [] then 0
    else Sevens(bytes[..|bytes|-1]) * 128 + bytes[|bytes|-1] % 128
  }

  lemma WrapsBefore(n: nat, d: nat)
    requires d < 128
    ensures n % WORD * 128 % WORD + d == (n * 128 + d) % WORD
  {
    var q, r := n / WORD, n % WORD;
    var q', r' := r * 128 / WORD, r * 128 % WORD;
    assert r' % 128 == 0 && r' + d < WORD;
    assert n * 128 + d == (r' + d) + (q * 128 + q') * WORD;
    Wraps(r' + d, q * 128 + q');
  }

  lemma Wraps(v: nat, q: nat)
    requires v < WORD
    ensures (v + q * WORD) % WORD == v
  {
  }

  /** A number takes the bytes up to the first that is below 128, and is what they stand for, as far as a
      word has room for it. */
  lemma {:induction false} NatMeans(b: seq<Byte>, start: nat, i: nat, j: nat)
    requires start <= i <= j < |b| && b[j] < 128 && forall k :: i <= k < j ==> b[k] >= 128
    ensures NatAt(b, i, Sevens(b[start..i]) % WORD) == Some((Sevens(b[start..j+1]) % WORD, j + 1))
    decreases j - i
  {
    var n, next := Sevens(b[start..i]), b[start..i+1];
    assert next[..|next|-1] == b[start..i] && next[|next|-1] == b[i];
    WrapsBefore(n, b[i] % 128);
    assert Sevens(next) == n * 128 + b[i] % 128;
    if i < j { NatMeans(b, start, i + 1, j); }
  }

  lemma NumberMeans(b: seq<Byte>, i: nat, j: nat)
    requires i <= j < |b| && b[j] < 128 && forall k :: i <= k < j ==> b[k] >= 128
    ensures NatAt(b, i, 0) == Some((Sevens(b[i..j+1]) % WORD, j + 1))
  {
    assert b[i..i] == [];
    NatMeans(b, i, i, j);
  }

  // ---- Making ----

  function SendBiggish(num: nat, done: seq<Byte>): seq<Byte> {
    if num < 127 then [num + 128] + done else SendBiggish(num / 128, [128 + num % 128] + done)
  }

  function SendNumber(num: nat): seq<Byte> {
    if num < 128 then [num] else SendBiggish(num / 128, [num % 128])
  }

  function SendField(f: Field): seq<Byte>
    requires FieldOk(f)
  {
    match f
    case Val(typ, n) => [0, typ] + SendNumber(n)
    case Back(diff) => SendNumber(diff)
  }

  function SendFields(fs: seq<Field>): seq<Byte>
    requires forall i :: 0 <= i < |fs| ==> FieldOk(fs[i])
  {
    if fs == [] then [] else SendField(fs[0]) + SendFields(fs[1..])
  }

  function SendObj(o: Obj): seq<Byte>
    requires ObjOk(o)
  {
    match o
    case Fix(typ, fields) => [1, typ] + SendNumber(|fields|) + SendFields(fields)
    case Raw(typ, bytes) => [2, typ] + SendNumber(|bytes|) + bytes
  }

  function SendImage(objs: seq<Obj>): seq<Byte>
    requires forall i :: 0 <= i < |objs| ==> ObjOk(objs[i])
  {
    if objs == [] then [0] else SendObj(objs[0]) + SendImage(objs[1..])
  }

  /** A type that fits its bits, and a number that fits a word; an object refers to others only. */
  predicate FieldOk(f: Field) {
    match f
    case Val(typ, n) => typ < 64 && n < WORD
    case Back(diff) => 0 < diff < WORD
  }

  predicate ObjOk(o: Obj) {
    match o
    case Fix(typ, fields) => typ < 64 && |fields| < MAXINT && forall i :: 0 <= i < |fields| ==> FieldOk(fields[i])
    case Raw(typ, bytes) => typ < 32 && |bytes| < MAXINT
  }

  // ---- Reading what was made ----

  lemma NatStep(b: seq<Byte>, i: nat, acc: nat)
    requires i < |b| && acc < WORD && acc * 128 < WORD
    ensures NatAt(b, i, acc)
         == if b[i] < 128 then Some((acc * 128 + b[i], i + 1)) else NatAt(b, i + 1, acc * 128 + b[i] - 128)
  {
  }

  /** Reading has the number when it gets to `done`. */
  lemma {:induction false} BiggishRead(b: seq<Byte>, i: nat, num: nat, done: seq<Byte>, rest: seq<Byte>)
    requires num < WORD && i <= |b| && b[i..] == SendBiggish(num, done) + rest
    ensures |done| + |rest| <= |b| && b[|b|-|done|-|rest|..] == done + rest
    ensures NatAt(b, i, 0) == NatAt(b, |b| - |done| - |rest|, num)
    decreases num
  {
    if num < 127 {
      assert b[i] == b[i..][0] == num + 128;
      assert b[i+1..] == b[i..][1..] == done + rest;
      NatStep(b, i, 0);
    } else {
      var more := [128 + num % 128] + done;
      BiggishRead(b, i, num / 128, more, rest);
      var j := |b| - |more| - |rest|;
      assert b[j] == b[j..][0] == 128 + num % 128;
      assert b[j+1..] == b[j..][1..] == done + rest;
      NatStep(b, j, num / 128);
    }
  }

  lemma NumberRead(b: seq<Byte>, i: nat, num: nat, rest: seq<Byte>)
    requires num < WORD && i <= |b| && b[i..] == SendNumber(num) + rest
    ensures NatAt(b, i, 0) == Some((num, |b| - |rest|)) && b[|b|-|rest|..] == rest
  {
    if num < 128 {
      assert b[i] == b[i..][0] == num;
      NatStep(b, i, 0);
      assert b[i+1..] == b[i..][1..] == rest;
    } else {
      var done := [num % 128];
      BiggishRead(b, i, num / 128, done, rest);
      var j := |b| - 1 - |rest|;
      assert b[j] == b[j..][0] == num % 128;
      assert b[j+1..] == b[j..][1..] == rest;
      NatStep(b, j, num / 128);
    }
  }

  lemma {:induction false} BiggishStarts(num: nat, done: seq<Byte>)
    ensures |SendBiggish(num, done)| > 0 && SendBiggish(num, done)[0] >= 128
    decreases num
  {
    if num >= 127 { BiggishStarts(num / 128, [128 + num % 128] + done); }
  }

  /** A positive number never starts with a zero, so it is not taken for an immediate. */
  lemma NumberStarts(num: nat)
    ensures |SendNumber(num)| > 0 && (num > 0 ==> SendNumber(num)[0] != 0)
  {
    if num >= 128 { BiggishStarts(num / 128, [num % 128]); }
  }

  lemma FieldRead(b: seq<Byte>, i: nat, f: Field, rest: seq<Byte>)
    requires FieldOk(f) && i <= |b| && b[i..] == SendField(f) + rest
    ensures FieldAt(b, i) == Some((f, |b| - |rest|)) && b[|b|-|rest|..] == rest
  {
    match f
    case Val(typ, n) =>
      assert b[i] == b[i..][0] == 0 && b[i+1] == b[i..][1] == typ;
      assert b[i+2..] == b[i..][2..] == SendNumber(n) + rest;
      NumberRead(b, i + 2, n, rest);
    case Back(diff) =>
      NumberStarts(diff);
      assert b[i] == b[i..][0] == SendNumber(diff)[0];
      NumberRead(b, i, diff, rest);
  }

  lemma {:induction false} FieldsRead(b: seq<Byte>, i: nat, fs: seq<Field>, rest: seq<Byte>)
    requires (forall k :: 0 <= k < |fs| ==> FieldOk(fs[k])) && i <= |b| && b[i..] == SendFields(fs) + rest
    ensures FieldsAt(b, i, |fs|) == Some((fs, |b| - |rest|)) && b[|b|-|rest|..] == rest
    decreases |fs|
  {
    hide FieldAt, SendField, FieldOk;
    if fs == [] {
      assert b[i..] == rest;
    } else {
      var after := SendFields(fs[1..]) + rest;
      assert b[i..] == SendField(fs[0]) + after;
      FieldRead(b, i, fs[0], after);
      FieldsRead(b, |b| - |after|, fs[1..], rest);
      assert [fs[0]] + fs[1..] == fs;
    }
  }

  /** The start of an object: its kind, its type and its size. */
  lemma HeadRead(b: seq<Byte>, i: nat, kind: Byte, typ: Byte, size: nat, body: seq<Byte>)
    requires size < MAXINT && i <= |b| && b[i..] == [kind, typ] + SendNumber(size) + body
    ensures i + 1 < |b| && b[i] == kind && b[i+1] == typ
    ensures NatAt(b, i + 2, 0) == Some((size, |b| - |body|)) && b[|b|-|body|..] == body
  {
    hide NatAt;
    NumberStarts(size);
    assert b[i] == b[i..][0] && b[i+1] == b[i..][1];
    assert b[i+2..] == b[i..][2..] == SendNumber(size) + body;
    NumberRead(b, i + 2, size, body);
  }

  lemma FixRead(b: seq<Byte>, i: nat, typ: Byte, fields: seq<Field>, rest: seq<Byte>)
    requires ObjOk(Fix(typ, fields)) && i <= |b|
          && b[i..] == [1, typ] + SendNumber(|fields|) + (SendFields(fields) + rest)
    ensures ObjAt(b, i) == Some((Fix(typ, fields), |b| - |rest|)) && b[|b|-|rest|..] == rest && i < |b| && b[i] == 1
  {
    hide NatAt, FieldsAt, SendNumber, SendFields;
    var body := SendFields(fields) + rest;
    HeadRead(b, i, 1, typ, |fields|, body);
    FieldsRead(b, |b| - |body|, fields, rest);
  }

  lemma RawRead(b: seq<Byte>, i: nat, typ: Byte, bytes: seq<Byte>, rest: seq<Byte>)
    requires ObjOk(Raw(typ, bytes)) && i <= |b| && b[i..] == [2, typ] + SendNumber(|bytes|) + (bytes + rest)
    ensures ObjAt(b, i) == Some((Raw(typ, bytes), |b| - |rest|)) && b[|b|-|rest|..] == rest && i < |b| && b[i] == 2
  {
    hide NatAt, FieldsAt, SendNumber;
    var body := bytes + rest;
    HeadRead(b, i, 2, typ, |bytes|, body);
    Behind(b, |b| - |body|, bytes, rest);
  }

  lemma Behind(b: seq<Byte>, j: nat, bytes: seq<Byte>, rest: seq<Byte>)
    requires j <= |b| && b[j..] == bytes + rest
    ensures j + |bytes| <= |b| && b[j..j+|bytes|] == bytes && b[j+|bytes|..] == rest
  {
    assert b[j..j+|bytes|] == b[j..][..|bytes|];
    assert b[j+|bytes|..] == b[j..][|bytes|..];
  }

  lemma ObjRead(b: seq<Byte>, i: nat, o: Obj, rest: seq<Byte>)
    requires ObjOk(o) && i <= |b| && b[i..] == SendObj(o) + rest
    ensures ObjAt(b, i) == Some((o, |b| - |rest|)) && b[|b|-|rest|..] == rest && i < |b| && b[i] != 0
  {
    hide ObjAt, SendNumber, SendFields;
    match o
    case Fix(typ, fields) =>
      assert b[i..] == [1, typ] + SendNumber(|fields|) + (SendFields(fields) + rest);
      FixRead(b, i, typ, fields, rest);
    case Raw(typ, bytes) =>
      assert b[i..] == [2, typ] + SendNumber(|bytes|) + (bytes + rest);
      RawRead(b, i, typ, bytes, rest);
  }

  lemma {:induction false} ImageReadFrom(b: seq<Byte>, i: nat, objs: seq<Obj>)
    requires (forall k :: 0 <= k < |objs| ==> ObjOk(objs[k])) && i <= |b| && b[i..] == SendImage(objs)
    ensures ObjsAt(b, i) == Some((objs, |b| - 1))
    decreases |objs|
  {
    hide ObjAt, SendObj, ObjOk;
    if objs == [] {
      assert b[i] == b[i..][0] == 0;
    } else {
      var rest := SendImage(objs[1..]);
      ObjRead(b, i, objs[0], rest);
      assert |b[i..]| > 0;
      ImageReadFrom(b, |b| - |rest|, objs[1..]);
      assert [objs[0]] + objs[1..] == objs;
    }
  }

  /** What was made is read back, to the last byte. */
  lemma ImageRead(objs: seq<Obj>)
    requires forall k :: 0 <= k < |objs| ==> ObjOk(objs[k])
    ensures ObjsAt(SendImage(objs), 0) == Some((objs, |SendImage(objs)| - 1))
  {
    assert SendImage(objs)[0..] == SendImage(objs);
    ImageReadFrom(SendImage(objs), 0, objs);
  }

  /** A difference of zero can be written too, though it never is: its first byte is not zero. */
  lemma ZeroDifference()
    ensures FieldAt([128, 0], 0) == Some((Back(0), 2)) && !FieldOk(Back(0))
  {
    assert NatAt([128, 0], 1, 0) == Some((0, 2));
  }
}
