/**
 The in-memory object store and its conditional requests (`MemStorage` in
 `src/store/storage.rs`). The conditions are If-Match and If-None-Match, sections 13.1.1
 and 13.1.2 of RFC 9110. The write counter is unbounded.
 */
module Storage {
  import opened Wrappers

  type Path = string

  // ---------------------------------------------------------------------------
  // Entity tags
  // ---------------------------------------------------------------------------

  const DIGITS: string := "0123456789abcdef"

  function Digits(n: nat): (s: string)
  {
    if n == 0 then "" else Digits(n / 16) + [DIGITS[n % 16]]
  }

  function Padded(s: string, width: nat): (r: string)
    decreases width - |s|
  {
    if |s| >= width then s else Padded("0" + s, width)
  }

  /** The write number as at least sixteen hexadecimal digits. */
  function Etag(n: nat): (s: string)
  {
    Padded(Digits(n), 16)
  }

  ghost function DigitValue(c: char): (v: nat)
  {
    if exists v :: 0 <= v < 16 && DIGITS[v] == c then
      var v :| 0 <= v < 16 && DIGITS[v] == c;
      v
    else
      0
  }

  ghost function Number(s: string): (n: nat)
  {
    if s == "" then 0 else Number(s[..|s| - 1]) * 16 + DigitValue(s[|s| - 1])
  }

  lemma DigitRoundTrip(v: nat)
    requires v < 16
    ensures DigitValue(DIGITS[v]) == v
  {
    assert DIGITS[v] == DIGITS[v];
    var w := DigitValue(DIGITS[v]);
    assert w < 16 && DIGITS[w] == DIGITS[v];
  }

  lemma {:induction false} DigitsRoundTrip(n: nat)
    ensures Number(Digits(n)) == n
  {
    if n > 0 {
      DigitsRoundTrip(n / 16);
      DigitRoundTrip(n % 16);
      assert Digits(n)[..|Digits(n)| - 1] == Digits(n / 16);
    }
  }

  lemma {:induction false} LeadingZero(s: string)
    ensures Number("0" + s) == Number(s)
    decreases |s|
  {
    if s == "" {
      DigitRoundTrip(0);
      assert ("0" + s)[..0] == "";
    } else {
      LeadingZero(s[..|s| - 1]);
      assert ("0" + s)[..|s|] == "0" + s[..|s| - 1];
    }
  }

  lemma {:induction false} PaddingKeepsNumber(s: string, width: nat)
    ensures Number(Padded(s, width)) == Number(s) && |Padded(s, width)| >= width
    decreases width - |s|
  {
    if |s| < width {
      LeadingZero(s);
      PaddingKeepsNumber("0" + s, width);
    }
  }

  /** Distinct writes have distinct, nonempty tags. */
  lemma EtagInjective(m: nat, n: nat)
    ensures Etag(m) == Etag(n) <==> m == n
    ensures Etag(m) != ""
  {
    DigitsRoundTrip(m);
    DigitsRoundTrip(n);
    PaddingKeepsNumber(Digits(m), 16);
    PaddingKeepsNumber(Digits(n), 16);
  }

  // ---------------------------------------------------------------------------
  // Buckets
  // ---------------------------------------------------------------------------

  datatype Object<+T> = Object(bytes: T, etag: string, version: nat)

  datatype Bucket<T> = Bucket(objects: map<Path, Object<T>>, writes: nat)

  datatype PutMode = Create | Update(etag: Option<string>, version: Option<nat>)

  datatype GetResult<+T> = Found(obj: Object<T>) | NotFound | NotModified

  predicate Accepts<T>(b: Bucket<T>, path: Path, mode: PutMode)
  {
    match mode
    case Create => path !in b.objects
    case Update(etag, version) =>
      && path in b.objects && etag == Some(b.objects[path].etag)
      && (version.Some? ==> version.value == b.objects[path].version)
  }

  function Put<T>(b: Bucket<T>, path: Path, payload: T): (r: Bucket<T>)
  {
    Bucket(b.objects[path := Object(payload, Etag(b.writes + 1), b.writes + 1)], b.writes + 1)
  }

  /** Tags spell versions, and no version lies in the future. */
  ghost predicate Tagged<T>(b: Bucket<T>)
  {
    forall p :: p in b.objects ==> b.objects[p].etag == Etag(b.objects[p].version) && b.objects[p].version <= b.writes
  }

  class MemStorage<T> {
    var objects: map<Path, Object<T>>
    var writes: nat

    ghost function Abs(): Bucket<T>
      reads this
    {
      Bucket(objects, writes)
    }

    constructor ()
      ensures Abs() == Bucket(map[], 0) && Tagged(Abs())
    {
      objects, writes := map[], 0;
    }

    method GetOpts(path: Path, ifNoneMatch: Option<string>) returns (r: GetResult<T>)
      ensures r.NotFound? <==> path !in objects
      ensures r.NotModified? <==> path in objects && ifNoneMatch == Some(objects[path].etag)
      ensures r.Found? ==> path in objects && r.obj == objects[path]
    {
      if path !in objects {
        return NotFound;
      }
      var out := objects[path];
      if ifNoneMatch == Some(out.etag) {
        return NotModified;
      }
      return Found(out);
    }

    method PutOpts(path: Path, payload: T, mode: PutMode) returns (r: Option<Object<T>>)
      requires Tagged(Abs())
      modifies this
      ensures Tagged(Abs())
      ensures r.Some? <==> Accepts(old(Abs()), path, mode)
      ensures mode.Create? ==> (r.Some? <==> path !in old(objects))
      ensures mode.Update? ==>
                (r.Some? <==> path in old(objects) && mode.etag == Some(old(objects)[path].etag)
                              && (mode.version.None? || mode.version == Some(old(objects)[path].version)))
      ensures r.None? ==> Abs() == old(Abs())
      ensures r.Some? ==> Abs() == Put(old(Abs()), path, payload) && r.value == objects[path]
      ensures r.Some? ==> r.value.bytes == payload && r.value.version == writes == old(writes) + 1
      ensures r.Some? ==> objects.Keys == old(objects).Keys + {path}
      ensures r.Some? ==> forall p :: p in old(objects) && p != path ==> objects[p] == old(objects)[p]
    {
      match mode {
        case Create =>
          if path in objects {
            return None;
          }
        case Update(etag, version) =>
          if path !in objects {
            return None;
          }
          var current := objects[path];
          if etag != Some(current.etag) {
            return None;
          }
          if version.Some? && version.value != current.version {
            return None;
          }
      }
      writes := writes + 1;
      var obj := Object(payload, Etag(writes), writes);
      objects := objects[path := obj];
      return Some(obj);
    }

    method Delete(path: Path)
      requires Tagged(Abs())
      modifies this
      ensures Tagged(Abs())
      ensures Abs() == Bucket(old(objects) - {path}, old(writes))
    {
      objects := objects - {path};
    }
  }

  // ---------------------------------------------------------------------------
  // A tag is never reused
  // ---------------------------------------------------------------------------

  datatype Request<T> = Write(path: Path, payload: T, mode: PutMode) | Remove(path: Path)

  function Served<T>(b: Bucket<T>, q: Request<T>): (r: Bucket<T>)
  {
    match q
    case Write(path, payload, mode) => if Accepts(b, path, mode) then Put(b, path, payload) else b
    case Remove(path) => Bucket(b.objects - {path}, b.writes)
  }

  function ServedAll<T>(b: Bucket<T>, qs: seq<Request<T>>): (r: Bucket<T>)
    decreases |qs|
  {
    if qs == [] then b else ServedAll(Served(b, qs[0]), qs[1..])
  }

  lemma ServedKeepsTagged<T>(b: Bucket<T>, q: Request<T>)
    requires Tagged(b)
    ensures Tagged(Served(b, q)) && b.writes <= Served(b, q).writes
  {
    hide Etag;
  }

  /** Along any run of requests an object is untouched or carries a later version. */
  lemma {:induction false} UntouchedOrLater<T>(b: Bucket<T>, qs: seq<Request<T>>, path: Path)
    requires Tagged(b)
    ensures var r := ServedAll(b, qs);
            && Tagged(r) && b.writes <= r.writes
            && (path in r.objects ==>
                  (path in b.objects && r.objects[path] == b.objects[path]) || r.objects[path].version > b.writes)
    decreases |qs|
  {
    hide Etag;
    if qs != [] {
      ServedKeepsTagged(b, qs[0]);
      UntouchedOrLater(Served(b, qs[0]), qs[1..], path);
    }
  }

  /**
   If-Match with a tag read earlier is accepted, after any run of requests by anyone,
   exactly when the object read is still the one stored.
   */
  lemma IfMatchMeansUnchanged<T>(b: Bucket<T>, qs: seq<Request<T>>, path: Path)
    requires Tagged(b) && path in b.objects
    ensures var r := ServedAll(b, qs);
            Accepts(r, path, Update(Some(b.objects[path].etag), None)) <==>
            path in r.objects && r.objects[path] == b.objects[path]
  {
    UntouchedOrLater(b, qs, path);
    var r := ServedAll(b, qs);
    if path in r.objects {
      EtagInjective(r.objects[path].version, b.objects[path].version);
    }
  }
}
