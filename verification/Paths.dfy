/** Node paths and node names. src/sdk/util/path.cc. */
module Paths {
  import opened Bytes
  import opened UrlEncoding

  const SLASH: Byte := 0x2f

  // ---------------------------------------------------------------- names

  /** A character that may stand in a name outside an escape. Where char is signed, bytes from 0x80 on are negative, and
      so below the space. */
  predicate NameChar(c: Byte, signedChar: bool)
  {
    !(c < 0x20 || (signedChar && c >= 0x80) || 0x3a <= c <= 0x3f || c in {0x5c, 0x27, 0x22, SLASH, 0x2a, 0x7c})
  }

  /** Allowed characters, with every percent sign followed by two hexadecimal digits. */
  predicate NameChars(s: Bytes, signedChar: bool)
  {
    s == []
    || (if s[0] == PERCENT then StartsEscape(s) && NameChars(s[3..], signedChar)
        else NameChar(s[0], signedChar) && NameChars(s[1..], signedChar))
  }

  const DOT: Bytes := [0x2e]
  const DOT_DOT: Bytes := [0x2e, 0x2e]

  predicate ValidName(name: Bytes, isMeta: bool, signedChar: bool)
  {
    name != [] && (isMeta || (name[0] != 0x40 && name[0] != 0x24)) && name != DOT && name != DOT_DOT && NameChars(name, signedChar)
  }

  /** invalid_name: `checkEscape` counts the hexadecimal digits still due. */
  method InvalidName(name: Bytes, isMeta: bool, signedChar: bool) returns (invalid: bool)
    ensures invalid <==> !ValidName(name, isMeta, signedChar)
  {
    if name == [] {
      return true;
    }
    if !isMeta && (name[0] == 0x40 || name[0] == 0x24) {
      return true;
    }
    if name == DOT || name == DOT_DOT {
      return true;
    }
    var checkEscape, i := 0, 0;
    while i < |name|
      invariant 0 <= i <= |name| && 0 <= checkEscape <= 2
      invariant NameChars(name, signedChar) <==> Pending(name[i..], checkEscape, signedChar)
    {
      var c := name[i];
      assert name[i..][1..] == name[i + 1..];
      PendingStep(name[i..], checkEscape, signedChar);
      if checkEscape > 0 {
        if HexValue(c) != -1 {
          checkEscape := checkEscape - 1;
          i := i + 1;
          continue;
        }
        return true;
      }
      if !NameChar(c, signedChar) {
        return true;
      }
      if c == PERCENT {
        checkEscape := 2;
      }
      i := i + 1;
    }
    invalid := checkEscape != 0;
  }

  /** The rest of a name after `due` of its hexadecimal digits are still to come. */
  predicate Pending(s: Bytes, due: int, signedChar: bool)
  {
    if due <= 0 then NameChars(s, signedChar)
    else s != [] && HexValue(s[0]) != -1 && Pending(s[1..], due - 1, signedChar)
  }

  lemma PendingStep(s: Bytes, due: nat, signedChar: bool)
    requires s != []
    ensures due > 0 ==> (Pending(s, due, signedChar) <==> HexValue(s[0]) != -1 && Pending(s[1..], due - 1, signedChar))
    ensures due == 0 && s[0] == PERCENT ==> (Pending(s, 0, signedChar) <==> Pending(s[1..], 2, signedChar))
    ensures due == 0 && s[0] != PERCENT ==>
              (Pending(s, 0, signedChar) <==> NameChar(s[0], signedChar) && Pending(s[1..], 0, signedChar))
  {
    if due == 0 && s[0] == PERCENT {
      if |s| >= 3 {
        assert s[1..][1..][1..] == s[3..];
        assert s[1..][0] == s[1] && s[1..][1..][0] == s[2];
        assert Pending(s[1..][1..], 1, signedChar) <==> HexValue(s[2]) != -1 && Pending(s[3..], 0, signedChar);
      }
    }
  }

  const FORBIDDEN: string := ":;<=>?\\'\"/*|"

  /** A byte that no name may contain by itself: a control character, one of these twelve, or, where char is signed, anything
      beyond ASCII. A percent sign needs its two digits. */
  predicate Forbidden(c: Byte, signedChar: bool)
  {
    c < ' ' as int || c as char in FORBIDDEN || (signedChar && c >= 0x80)
  }

  lemma {:induction false} PlainName(s: Bytes, signedChar: bool)
    requires '%' as int !in s
    ensures ValidName(s, true, signedChar)
            <==> s != [] && s != ['.' as int] && s != ['.' as int, '.' as int] && forall c :: c in s ==> !Forbidden(c, signedChar)
    ensures ValidName(s, false, signedChar) <==> ValidName(s, true, signedChar) && s[0] != '@' as int && s[0] != '$' as int
  {
    PlainChars(s, signedChar);
  }

  lemma {:induction false} PlainChars(s: Bytes, signedChar: bool)
    requires '%' as int !in s
    ensures NameChars(s, signedChar) <==> forall c :: c in s ==> !Forbidden(c, signedChar)
  {
    if s != [] {
      ForbiddenIs(s[0], signedChar);
      PlainChars(s[1..], signedChar);
      assert s == [s[0]] + s[1..];
    }
  }

  lemma ForbiddenIs(c: Byte, signedChar: bool)
    ensures NameChar(c, signedChar) <==> !Forbidden(c, signedChar)
  {
  }

  /** An escape may stand anywhere, with digits of either case, and a percent sign without two digits nowhere. */
  lemma EscapedName(s: Bytes, signedChar: bool)
    requires s != [] && s[0] == '%' as int
    ensures NameChars(s, signedChar)
            <==> |s| >= 3 && Hexadecimal(s[1]) && Hexadecimal(s[2]) && NameChars(s[3..], signedChar)
  {
    hide Hexadecimal, HexValue;
    if |s| >= 3 {
      HexadecimalIs(s[1]);
      HexadecimalIs(s[2]);
    }
  }

  // ---------------------------------------------------------------- encoded names

  /** Bytes that url_encode_node_name leaves as they are although a name may not contain them. */
  predicate Overlooked(c: Byte, signedChar: bool)
  {
    c == 0x22 || c == 0x7c || (signedChar && c >= 0x80)
  }

  lemma {:induction false} EncodedChars(s: Bytes, signedChar: bool)
    ensures NameChars(Encode(s, NODE_NAME), signedChar) <==> forall c :: c in s ==> !Overlooked(c, signedChar)
  {
    if s != [] {
      var c, rest := s[0], Encode(s[1..], NODE_NAME);
      EncodedChars(s[1..], signedChar);
      assert (forall x :: x in s ==> !Overlooked(x, signedChar))
             <==> !Overlooked(c, signedChar) && forall x :: x in s[1..] ==> !Overlooked(x, signedChar);
      if Safe(c) >= NODE_NAME {
        assert ([c] + rest)[1..] == rest;
      } else {
        HexRoundTrip(c);
        assert (EncodeByte(c, NODE_NAME) + rest)[3..] == rest;
      }
    }
  }

  /** When exactly encoding any string as a node name gives a valid name: not for the empty string, for "." and "..", for
      what starts like an attribute or a metadata name, and for what contains a character that the encoder overlooks. */
  lemma EncodedNameValid(s: Bytes, signedChar: bool)
    ensures ValidName(Encode(s, NODE_NAME), false, signedChar)
            <==> s != [] && s[0] != 0x40 && s[0] != 0x24 && s != DOT && s != DOT_DOT
                 && forall c :: c in s ==> !Overlooked(c, signedChar)
  {
    EncodedChars(s, signedChar);
    UrlRoundTrip(s, NODE_NAME);
    UrlRoundTrip(DOT, NODE_NAME);
    UrlRoundTrip(DOT_DOT, NODE_NAME);
    assert DOT_DOT[1..] == DOT && DOT[1..] == [];
    assert Encode(DOT, NODE_NAME) == DOT;
    assert Encode(DOT_DOT, NODE_NAME) == DOT_DOT;
  }

  // ---------------------------------------------------------------- paths

  datatype PathData = PathData(str: Bytes, names: seq<Bytes>, isRoot: bool, invalid: bool)

  /** The parts between slashes. */
  function Split(path: Bytes): (parts: seq<Bytes>)
    ensures |parts| >= 1
  {
    if path == [] then [[]]
    else
      var rest := Split(path[1..]);
      if path[0] == SLASH then [[]] + rest else [[path[0]] + rest[0]] + rest[1..]
  }

  function Join(names: seq<Bytes>): Bytes
  {
    if names == [] then [] else if |names| == 1 then names[0] else names[0] + [SLASH] + Join(names[1..])
  }

  /** The leading valid parts. */
  function ValidPrefix(parts: seq<Bytes>, signedChar: bool): (names: seq<Bytes>)
    ensures names <= parts
    ensures forall n :: n in names ==> ValidName(n, false, signedChar)
    ensures names != parts ==> !ValidName(parts[|names|], false, signedChar)
  {
    if parts == [] || !ValidName(parts[0], false, signedChar) then [] else [parts[0]] + ValidPrefix(parts[1..], signedChar)
  }

  /** The PathData of a string. */
  function PathOf(path: Bytes, signedChar: bool): PathData
  {
    if path == [] then PathData([], [], true, false)
    else
      var names := ValidPrefix(Split(path), signedChar);
      PathData(path, names, false, names != Split(path))
  }

  /** The PathData of a list of names. */
  function PathFromNames(names: seq<Bytes>): PathData
  {
    PathData(Join(names), names, names == [], false)
  }

  predicate NoSlash(s: Bytes) { SLASH !in s }

  lemma {:induction false} ValidHasNoSlash(s: Bytes, signedChar: bool)
    requires NameChars(s, signedChar)
    ensures NoSlash(s)
  {
    if s != [] {
      if s[0] == PERCENT {
        ValidHasNoSlash(s[3..], signedChar);
        assert s == [s[0], s[1], s[2]] + s[3..];
      } else {
        ValidHasNoSlash(s[1..], signedChar);
        assert s == [s[0]] + s[1..];
      }
    }
  }

  /** Joining the parts of any string gives the string back. */
  lemma {:induction false} JoinSplit(path: Bytes)
    ensures Join(Split(path)) == path
    ensures forall p :: p in Split(path) ==> NoSlash(p)
  {
    if path != [] {
      var rest := Split(path[1..]);
      JoinSplit(path[1..]);
      if path[0] == SLASH {
        assert ([[]] + rest)[1..] == rest;
      } else {
        assert ([[path[0]] + rest[0]] + rest[1..])[1..] == rest[1..];
        assert NoSlash(rest[0]);
        forall p | p in Split(path) ensures NoSlash(p) {
          assert p == [path[0]] + rest[0] || p in rest[1..];
        }
      }
    }
  }

  /** Splitting joined parts without slashes gives the parts back. */
  lemma {:induction false} SplitJoin(parts: seq<Bytes>)
    requires parts != [] && forall p :: p in parts ==> NoSlash(p)
    ensures Split(Join(parts)) == parts
    decreases |Join(parts)|, |parts|
  {
    var joined := Join(parts);
    if parts[0] == [] {
      if |parts| > 1 {
        SplitJoin(parts[1..]);
        assert joined[1..] == Join(parts[1..]);
      }
    } else {
      var shorter := [parts[0][1..]] + parts[1..];
      assert shorter[1..] == parts[1..];
      assert joined[1..] == Join(shorter);
      forall p | p in shorter ensures NoSlash(p) {
        assert p == shorter[0] || p in parts[1..];
        assert parts[0] in parts;
      }
      assert joined[0] == parts[0][0] && NoSlash(parts[0]);
      SplitJoin(shorter);
      assert [parts[0][0]] + parts[0][1..] == parts[0];
    }
  }

  /** The loop of the PathData constructor over the parts of a string. */
  method ParsePath(path: Bytes, signedChar: bool) returns (d: PathData)
    ensures d == PathOf(path, signedChar)
  {
    hide Split, ValidPrefix, ValidName, NoSlash;
    d := PathData(path, [], false, false);
    if path == [] {
      return d.(isRoot := true);
    }
    var current := path;
    while true
      invariant Split(path) == d.names + Split(current) && d.str == path && !d.isRoot && !d.invalid
      invariant forall n :: n in d.names ==> ValidName(n, false, signedChar)
      decreases |current|
    {
      var next := FindSlash(current);
      var name := current[..next];
      SplitAt(current, next);
      assert next == |current| ==> name == current;
      var bad := InvalidName(name, false, signedChar);
      if bad {
        PrefixStops(d.names, Split(current), signedChar);
        return d.(invalid := true);
      }
      ghost var before := d.names;
      d := d.(names := d.names + [name]);
      if next == |current| {
        PrefixAll(d.names, signedChar);
        return;
      }
      current := current[next + 1..];
      assert before + ([name] + Split(current)) == d.names + Split(current);
      if current == [] {
        EmptyPart(signedChar);
        PrefixStops(d.names, Split([]), signedChar);
        return d.(invalid := true);
      }
    }
  }

  /** std::find of the next slash. */
  method FindSlash(s: Bytes) returns (i: nat)
    ensures i <= |s| && NoSlash(s[..i]) && (i < |s| ==> s[i] == SLASH)
  {
    i := 0;
    while i < |s| && s[i] != SLASH
      invariant 0 <= i <= |s| && forall j :: 0 <= j < i ==> s[j] != SLASH
    {
      i := i + 1;
    }
  }

  lemma {:induction false} SplitAt(s: Bytes, i: nat)
    requires i <= |s| && NoSlash(s[..i]) && (i < |s| ==> s[i] == SLASH)
    ensures Split(s) == if i == |s| then [s] else [s[..i]] + Split(s[i + 1..])
  {
    if i > 0 {
      assert s[..i][0] == s[0];
      assert s[1..][..i - 1] == s[..i][1..];
      SplitAt(s[1..], i - 1);
      if i < |s| {
        assert s[1..][i..] == s[i + 1..];
        assert [s[0]] + s[1..][..i - 1] == s[..i];
      } else {
        assert [s[0]] + s[1..] == s;
      }
    }
  }

  lemma {:induction false} PrefixStops(names: seq<Bytes>, rest: seq<Bytes>, signedChar: bool)
    requires forall n :: n in names ==> ValidName(n, false, signedChar)
    requires rest != [] && !ValidName(rest[0], false, signedChar)
    ensures ValidPrefix(names + rest, signedChar) == names
  {
    if names == [] {
      assert names + rest == rest;
    } else {
      PrefixStops(names[1..], rest, signedChar);
      assert (names + rest)[1..] == names[1..] + rest;
    }
  }

  lemma EmptyPart(signedChar: bool)
    ensures Split([]) == [[]] && !ValidName([], false, signedChar)
  {
  }

  lemma PrefixAll(names: seq<Bytes>, signedChar: bool)
    requires forall n :: n in names ==> ValidName(n, false, signedChar)
    ensures ValidPrefix(names, signedChar) == names
  {
  }

  /** Any list of valid names, joined and parsed, is that path again. */
  lemma NamesRoundTrip(names: seq<Bytes>, signedChar: bool)
    requires forall n :: n in names ==> ValidName(n, false, signedChar)
    ensures PathOf(Join(names), signedChar) == PathFromNames(names)
  {
    if names != [] {
      forall n | n in names ensures NoSlash(n) {
        ValidHasNoSlash(n, signedChar);
      }
      SplitJoin(names);
      PrefixAll(names, signedChar);
      assert names[0] in names;
      assert Join(names) != [];
    }
  }

  /** Any valid string, parsed and joined, is that string again; and a string is a valid path exactly when all of its parts
      are valid names, or it is empty. */
  lemma StringRoundTrip(path: Bytes, signedChar: bool)
    ensures !PathOf(path, signedChar).invalid <==> path == [] || forall n :: n in Split(path) ==> ValidName(n, false, signedChar)
    ensures !PathOf(path, signedChar).invalid ==> PathFromNames(PathOf(path, signedChar).names) == PathOf(path, signedChar)
  {
    JoinSplit(path);
    if path != [] {
      if forall n :: n in Split(path) ==> ValidName(n, false, signedChar) {
        PrefixAll(Split(path), signedChar);
      }
    }
  }

  /** get_child_path. There is no value for an invalid path. */
  function ChildPath(d: PathData, name: Bytes, signedChar: bool): Result<PathData>
  {
    if ValidName(name, false, signedChar) then Ok(PathFromNames(d.names + [name])) else Err("invalid name")
  }

  /** get_parent_path. */
  function ParentPath(d: PathData): Result<PathData>
    requires !d.invalid && !d.isRoot ==> d.names != []
  {
    if !d.invalid && !d.isRoot then Ok(PathFromNames(d.names[..|d.names| - 1])) else Err("no parent")
  }

  /** The parent of a child is the path one started from, and the child of a valid path is the valid path of the joined
      string. */
  lemma ParentOfChild(path: Bytes, name: Bytes, signedChar: bool)
    requires !PathOf(path, signedChar).invalid && ValidName(name, false, signedChar)
    ensures var d := PathOf(path, signedChar); var c := ChildPath(d, name, signedChar);
            c.Ok? && c.value.names != [] && ParentPath(c.value) == Ok(d)
            && c.value == PathOf(if path == [] then name else path + [SLASH] + name, signedChar)
  {
    var d := PathOf(path, signedChar);
    StringRoundTrip(path, signedChar);
    JoinSplit(path);
    var names := d.names + [name];
    assert names[..|names| - 1] == d.names;
    NamesRoundTrip(names, signedChar);
    JoinSnoc(d.names, name);
  }

  /** A path has a parent exactly when it is valid and not the root: what stands before its last name, without the slash. */
  lemma ParentIs(path: Bytes, signedChar: bool)
    ensures var d := PathOf(path, signedChar);
            (d.invalid || d.isRoot || d.names != [])
            && (ParentPath(d).Ok? <==> path != [] && forall n :: n in Split(path) ==> ValidName(n, false, signedChar))
            && (ParentPath(d).Ok? ==>
                  var p, name := ParentPath(d).value, d.names[|d.names| - 1];
                  ValidName(name, false, signedChar) && path == (if p.isRoot then name else p.str + [SLASH] + name)
                  && (p.isRoot <==> |d.names| == 1) && (p.isRoot ==> p.str == []))
  {
    hide Split, ValidName;
    var d := PathOf(path, signedChar);
    StringRoundTrip(path, signedChar);
    if path != [] && !d.invalid {
      JoinSplit(path);
      var n := |d.names| - 1;
      assert d.names == d.names[..n] + [d.names[n]];
      JoinSnoc(d.names[..n], d.names[n]);
    }
  }

  /** A child has a valid name, or there is no child. */
  lemma ChildIs(path: Bytes, name: Bytes, signedChar: bool)
    ensures ChildPath(PathOf(path, signedChar), name, signedChar).Ok? <==> ValidName(name, false, signedChar)
  {
  }

  lemma {:induction false} JoinSnoc(names: seq<Bytes>, name: Bytes)
    ensures Join(names + [name]) == if names == [] then name else Join(names) + [SLASH] + name
  {
    if |names| == 0 {
      assert names + [name] == [name];
    } else {
      JoinSnoc(names[1..], name);
      assert (names + [name])[1..] == names[1..] + [name];
    }
  }
}
