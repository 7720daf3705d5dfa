/**
 * The decoded composer.json as PHP holds it (nested arrays), and the two
 * edits the installer applies to it: a nested assignment
 * `$a['k1']...['kn'] = v` and a nested `unset($a['k1']...['kn'])`.
 * Keys in paths are non-numeric strings, as all of the installer's are.
 */
module Json {
  import opened Wrappers

  datatype Json =
    | Null
    | Bool(b: bool)
    | Num(n: int)
    | Str(s: string)
    | List(items: seq<Json>)
    | Obj(fields: map<string, Json>)

  /** A sequence of keys leading from the document root to a value. */
  type Path = seq<string>

  /** The PHP errors a nested edit can raise. */
  datatype Fault =
    | ScalarAsArray  // a string, number or `true` used as an array
    | KeyIntoList    // a string key written into a JSON list

  /** `null` and `false` silently turn into an empty array when written through. */
  predicate Vivifies(j: Json)
  {
    j == Null || j == Bool(false)
  }

  /** The value at `p`, if every key on the way is present in an object. */
  function Get(j: Json, p: Path): Option<Json>
    decreases |p|
  {
    if |p| == 0 then Some(j)
    else if j.Obj? && p[0] in j.fields then Get(j.fields[p[0]], p[1..])
    else None
  }

  /** `$j[p[0]]...[p[n-1]] = v`: missing, null and false levels become objects; other scalars raise an error. */
  function Set(j: Json, p: Path, v: Json): Result<Json, Fault>
    decreases |p|
  {
    if |p| == 0 then Success(v)
    else if j.Obj? then
      var c :- Set(if p[0] in j.fields then j.fields[p[0]] else Null, p[1..], v);
      Success(Obj(j.fields[p[0] := c]))
    else if Vivifies(j) then
      var c :- Set(Null, p[1..], v);
      Success(Obj(map[p[0] := c]))
    else if j.List? then Failure(KeyIntoList)
    else Failure(ScalarAsArray)
  }

  /** `unset($j[p[0]]...[p[n-1]])`: a missing level ends it silently; a string, number or `true` raises an error. */
  function Unset(j: Json, p: Path): Result<Json, Fault>
    requires |p| > 0
    decreases |p|
  {
    if j.Obj? then
      if |p| == 1 then Success(Obj(j.fields - {p[0]}))
      else if p[0] in j.fields then
        var c :- Unset(j.fields[p[0]], p[1..]);
        Success(Obj(j.fields[p[0] := c]))
      else Success(j)
    else if Vivifies(j) || j.List? then Success(j)
    else Failure(ScalarAsArray)
  }

  /** Neither path is a prefix of the other: they part at some key. */
  predicate Apart(p: Path, q: Path)
    decreases |p|
  {
    |p| > 0 && |q| > 0 && (p[0] != q[0] || Apart(p[1..], q[1..]))
  }

  lemma {:induction false} ApartSymmetric(p: Path, q: Path)
    requires Apart(p, q)
    ensures Apart(q, p)
    decreases |p|
  {
    if p[0] == q[0] {
      ApartSymmetric(p[1..], q[1..]);
    }
  }

  /** Writing through `null` always succeeds. */
  lemma {:induction false} SetOnNull(p: Path, v: Json)
    ensures Set(Null, p, v).Success?
    decreases |p|
  {
    if |p| > 0 {
      SetOnNull(p[1..], v);
    }
  }

  /** After a successful write, the written value is found at its path. */
  lemma {:induction false} SetThenGet(j: Json, p: Path, v: Json)
    requires Set(j, p, v).Success?
    ensures Get(Set(j, p, v).value, p) == Some(v)
    decreases |p|
  {
    if |p| > 0 {
      if j.Obj? {
        SetThenGet(if p[0] in j.fields then j.fields[p[0]] else Null, p[1..], v);
      } else {
        SetThenGet(Null, p[1..], v);
      }
    }
  }

  /** A write leaves every path apart from its own unchanged. */
  lemma {:induction false} SetKeepsApart(j: Json, p: Path, v: Json, q: Path)
    requires Set(j, p, v).Success?
    requires Apart(p, q)
    ensures Get(Set(j, p, v).value, q) == Get(j, q)
    decreases |p|
  {
    if p[0] == q[0] {
      if j.Obj? {
        SetKeepsApart(if p[0] in j.fields then j.fields[p[0]] else Null, p[1..], v, q[1..]);
      } else {
        SetKeepsApart(Null, p[1..], v, q[1..]);
      }
    }
  }

  /** After a successful unset, nothing is found at its path. */
  lemma {:induction false} UnsetThenGet(j: Json, p: Path)
    requires |p| > 0 && Unset(j, p).Success?
    ensures Get(Unset(j, p).value, p) == None
    decreases |p|
  {
    if j.Obj? && |p| > 1 && p[0] in j.fields {
      UnsetThenGet(j.fields[p[0]], p[1..]);
    }
  }

  /** An unset leaves every path apart from its own unchanged. */
  lemma {:induction false} UnsetKeepsApart(j: Json, p: Path, q: Path)
    requires |p| > 0 && Unset(j, p).Success?
    requires Apart(p, q)
    ensures Get(Unset(j, p).value, q) == Get(j, q)
    decreases |p|
  {
    if j.Obj? && |p| > 1 && p[0] in j.fields && p[0] == q[0] {
      UnsetKeepsApart(j.fields[p[0]], p[1..], q[1..]);
    }
  }

  /** An unset never creates a value: what was absent stays absent. */
  lemma {:induction false} UnsetKeepsAbsent(j: Json, p: Path, q: Path)
    requires |p| > 0 && Unset(j, p).Success?
    requires Get(j, q) == None
    ensures Get(Unset(j, p).value, q) == None
    decreases |p|
  {
    if j.Obj? && |p| > 1 && p[0] in j.fields && |q| > 0 && p[0] == q[0] {
      UnsetKeepsAbsent(j.fields[p[0]], p[1..], q[1..]);
    }
  }

  /** Reading along `p + q` is reading `q` inside the value found at `p`. */
  lemma {:induction false} GetConcat(j: Json, p: Path, q: Path)
    ensures Get(j, p + q) == match Get(j, p) case Some(x) => Get(x, q) case None => None
    decreases |p|
  {
    if |p| == 0 {
      assert p + q == q;
    } else {
      assert (p + q)[0] == p[0] && (p + q)[1..] == p[1..] + q;
      if j.Obj? && p[0] in j.fields {
        GetConcat(j.fields[p[0]], p[1..], q);
      }
    }
  }

  /** A level a nested write can pass through: absent, an object, null or false. */
  predicate Layer(o: Option<Json>)
  {
    o.None? || o.value.Obj? || Vivifies(o.value)
  }

  /** Every level strictly above the leaf of `p` can be written through. */
  predicate Shaped(j: Json, p: Path)
  {
    forall k :: 0 <= k < |p| ==> Layer(Get(j, p[..k]))
  }

  /** `p` is a proper prefix of `q`. */
  predicate Extends(p: Path, q: Path)
  {
    |p| < |q| && q[..|p|] == p
  }

  /** Shape of a path, read one level down. */
  lemma ShapedStep(j: Json, p: Path)
    requires |p| > 0
    ensures Shaped(j, p) <==>
      Layer(Some(j)) && (j.Obj? && p[0] in j.fields ==> Shaped(j.fields[p[0]], p[1..]))
  {
    assert p[..0] == [];
    if j.Obj? && p[0] in j.fields {
      forall k | 1 <= k <= |p|
        ensures Get(j, p[..k]) == Get(j.fields[p[0]], p[1..][..k - 1])
      {
        assert p[..k][0] == p[0] && p[..k][1..] == p[1..][..k - 1];
      }
      if Shaped(j, p) {
        forall k | 0 <= k < |p| - 1
          ensures Layer(Get(j.fields[p[0]], p[1..][..k]))
        {
          assert Layer(Get(j, p[..k + 1]));
        }
      }
      if Shaped(j.fields[p[0]], p[1..]) {
        forall k | 1 <= k < |p|
          ensures Layer(Get(j, p[..k]))
        {
          assert Layer(Get(j.fields[p[0]], p[1..][..k - 1]));
        }
      }
    } else if Layer(Some(j)) {
      forall k | 1 <= k < |p|
        ensures Get(j, p[..k]) == None
      {
        assert p[..k][0] == p[0];
      }
    }
  }

  /** Below null, false or a missing key, every path is shaped. */
  lemma ShapedNull(p: Path)
    ensures Shaped(Null, p)
  {
    forall k | 0 <= k < |p|
      ensures Layer(Get(Null, p[..k]))
    {
    }
  }

  /** A nested write succeeds exactly when every level above the leaf can be written through. */
  lemma {:induction false} SetSucceedsIffShaped(j: Json, p: Path, v: Json)
    ensures Set(j, p, v).Success? <==> Shaped(j, p)
    decreases |p|
  {
    if |p| > 0 {
      ShapedStep(j, p);
      if j.Obj? {
        if p[0] in j.fields {
          SetSucceedsIffShaped(j.fields[p[0]], p[1..], v);
        } else {
          ShapedNull(p[1..]);
          SetOnNull(p[1..], v);
        }
      } else if Vivifies(j) {
        ShapedNull(p[1..]);
        SetOnNull(p[1..], v);
      }
    }
  }

  /** A nested unset succeeds whenever every level above the leaf can be written through. */
  lemma {:induction false} ShapedUnsetSucceeds(j: Json, p: Path)
    requires |p| > 0 && Shaped(j, p)
    ensures Unset(j, p).Success?
    decreases |p|
  {
    ShapedStep(j, p);
    if j.Obj? && |p| > 1 && p[0] in j.fields {
      ShapedUnsetSucceeds(j.fields[p[0]], p[1..]);
    }
  }

  /** A write keeps every other path writable, unless it plants its value strictly above that path's leaf. */
  lemma {:induction false} SetKeepsShaped(j: Json, p: Path, v: Json, q: Path)
    requires Set(j, p, v).Success? && Shaped(j, q) && !Extends(p, q)
    ensures Shaped(Set(j, p, v).value, q)
    decreases |p|
  {
    if |p| > 0 && |q| > 0 {
      var r := Set(j, p, v).value;
      ShapedStep(j, q);
      ShapedStep(r, q);
      var child := if j.Obj? && p[0] in j.fields then j.fields[p[0]] else Null;
      if q[0] == p[0] {
        assert !Extends(p[1..], q[1..]);
        if j.Obj? && p[0] in j.fields {
        } else {
          ShapedNull(q[1..]);
        }
        SetKeepsShaped(child, p[1..], v, q[1..]);
      } else if !j.Obj? {
        assert q[0] !in r.fields;
      }
    }
  }

  /** An unset keeps every path writable. */
  lemma {:induction false} UnsetKeepsShaped(j: Json, p: Path, q: Path)
    requires |p| > 0 && Unset(j, p).Success? && Shaped(j, q)
    ensures Shaped(Unset(j, p).value, q)
    decreases |p|
  {
    if |q| > 0 && j.Obj? {
      var r := Unset(j, p).value;
      ShapedStep(j, q);
      ShapedStep(r, q);
      if |p| > 1 && p[0] in j.fields && q[0] == p[0] {
        UnsetKeepsShaped(j.fields[p[0]], p[1..], q[1..]);
      }
    }
  }
}
