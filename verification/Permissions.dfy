/** The four messaging permissions and the reading of Move type names. */
module Permissions {
  import opened Wrappers

  datatype Permission = MessagingSender | MessagingReader | MessagingEditor | MessagingDeleter

  function Name(p: Permission): string {
    match p
    case MessagingSender => "MessagingSender"
    case MessagingReader => "MessagingReader"
    case MessagingEditor => "MessagingEditor"
    case MessagingDeleter => "MessagingDeleter"
  }

  /** `str::split("::")`: separators are taken greedily from the left. */
  function Split(s: string): (parts: seq<string>)
    ensures |parts| >= 1
  {
    if |s| < 2 then [s]
    else if s[..2] == "::" then [""] + Split(s[2..])
    else
      var rest := Split(s[1..]);
      [[s[0]] + rest[0]] + rest[1..]
  }

  function LastSegment(s: string): string {
    var parts := Split(s);
    parts[|parts| - 1]
  }

  function FromTypeName(typeName: string): Option<Permission> {
    var name := LastSegment(typeName);
    if name == "MessagingSender" then Some(MessagingSender)
    else if name == "MessagingReader" then Some(MessagingReader)
    else if name == "MessagingEditor" then Some(MessagingEditor)
    else if name == "MessagingDeleter" then Some(MessagingDeleter)
    else None
  }

  function Join(parts: seq<string>): string
    requires |parts| >= 1
  {
    if |parts| == 1 then parts[0] else parts[0] + "::" + Join(parts[1..])
  }

  lemma Regroup(a: string, b: string, c: string, d: string)
    ensures a + b + c + d == a + (b + c + d)
  {
  }

  lemma JoinExtended(c: char, parts: seq<string>)
    requires |parts| >= 1
    ensures Join([[c] + parts[0]] + parts[1..]) == [c] + Join(parts)
  {
    var longer := [[c] + parts[0]] + parts[1..];
    if |parts| > 1 {
      assert longer[1..] == parts[1..] && longer[0] == [c] + parts[0];
      Regroup([c], parts[0], "::", Join(parts[1..]));
    }
  }

  lemma JoinSeparated(parts: seq<string>)
    requires |parts| >= 1
    ensures Join([""] + parts) == "::" + Join(parts)
  {
    assert ([""] + parts)[1..] == parts;
    assert "" + "::" == "::";
  }

  /** Nothing is lost by splitting. */
  lemma {:induction false} JoinSplit(s: string)
    ensures Join(Split(s)) == s
  {
    if |s| >= 2 {
      if s[..2] == "::" {
        JoinSplit(s[2..]);
        JoinSeparated(Split(s[2..]));
        assert s == s[..2] + s[2..];
      } else {
        JoinSplit(s[1..]);
        JoinExtended(s[0], Split(s[1..]));
        assert s == [s[0]] + s[1..];
      }
    }
  }

  /** How many colons end the string. */
  function TrailingColons(s: string): nat {
    if s == "" || s[|s| - 1] != ':' then 0 else 1 + TrailingColons(s[..|s| - 1])
  }

  lemma {:induction false} TrailingColonsOfTail(s: string, k: nat)
    requires k <= |s|
    ensures TrailingColons(s[k..]) <= |s| - k
    ensures TrailingColons(s[k..]) < |s| - k ==> TrailingColons(s) == TrailingColons(s[k..])
    ensures TrailingColons(s[k..]) == |s| - k ==> TrailingColons(s) == |s| - k + TrailingColons(s[..k])
    decreases |s| - k
  {
    if k == |s| {
      assert s[..k] == s;
    } else {
      var t := s[..|s| - 1];
      assert t[k..] == s[k..][..|s| - k - 1];
      assert s[k..][|s| - k - 1] == s[|s| - 1];
      TrailingColonsOfTail(t, k);
      assert t[..k] == s[..k];
    }
  }

  lemma {:induction false} AllColons(s: string)
    requires TrailingColons(s) == |s|
    ensures forall i :: 0 <= i < |s| ==> s[i] == ':'
  {
    if s != "" {
      AllColons(s[..|s| - 1]);
    }
  }

  lemma TwoColons()
    ensures TrailingColons("::") == 2
  {
    assert "::"[..1] == ":" && ":"[..0] == "";
    assert TrailingColons(":") == 1;
  }

  lemma {:induction false} SplitOfColonFree(name: string)
    requires ':' !in name
    ensures Split(name) == [name]
  {
    if |name| >= 2 {
      assert name[0] != ':';
      SplitOfColonFree(name[1..]);
      assert name == [name[0]] + name[1..];
    }
  }

  lemma LastSegmentAfterSeparator(s: string)
    requires |s| >= 2 && s[..2] == "::"
    ensures |Split(s)| == |Split(s[2..])| + 1 && LastSegment(s) == LastSegment(s[2..])
  {
  }

  lemma LastSegmentAfterChar(s: string)
    requires |s| >= 2 && s[..2] != "::"
    ensures |Split(s)| == |Split(s[1..])|
    ensures LastSegment(s) == if |Split(s)| == 1 then [s[0]] + LastSegment(s[1..]) else LastSegment(s[1..])
  {
  }

  lemma OnlySegment(s: string)
    requires |Split(s)| == 1
    ensures LastSegment(s) == s
  {
    JoinSplit(s);
  }

  /** A run of colons that ends a prefix, or the empty prefix: what may stand before a name. */
  predicate EvenColons(prefix: string) {
    prefix == "" || (TrailingColons(prefix) >= 2 && TrailingColons(prefix) % 2 == 0)
  }

  lemma EvenAfterSeparator(prefix: string)
    requires |prefix| >= 2 && prefix[..2] == "::"
    ensures EvenColons(prefix) <==> EvenColons(prefix[2..])
  {
    TrailingColonsOfTail(prefix, 2);
    TwoColons();
  }

  lemma EvenAfterChar(prefix: string)
    requires |prefix| >= 2 && prefix[..2] != "::"
    ensures TrailingColons(prefix) == TrailingColons(prefix[1..])
  {
    TrailingColonsOfTail(prefix, 1);
    if TrailingColons(prefix[1..]) == |prefix| - 1 {
      AllColons(prefix[1..]);
      assert prefix[1..][0] == ':';
      assert prefix[..2] == [prefix[0], ':'];
      assert prefix[..1][0] == prefix[0] != ':';
    }
  }

  /** Exactly when the last segment of `prefix + name` is `name`. */
  lemma {:induction false} LastSegmentIsName(prefix: string, name: string)
    requires name != "" && ':' !in name
    ensures TrailingColons(prefix) >= 2 ==> |Split(prefix + name)| > 1
    ensures LastSegment(prefix + name) == name <==> EvenColons(prefix)
    decreases |prefix|
  {
    var s := prefix + name;
    if |prefix| <= 1 {
      SplitOfColonFree(name);
      if prefix == "" {
        assert s == name;
      } else {
        assert s[..2][1] == name[0] && s[1..] == name;
        LastSegmentAfterChar(s);
      }
    } else if prefix[..2] == "::" {
      assert s[..2] == prefix[..2] && s[2..] == prefix[2..] + name;
      LastSegmentIsName(prefix[2..], name);
      LastSegmentAfterSeparator(s);
      EvenAfterSeparator(prefix);
    } else {
      assert s[..2] == prefix[..2] && s[1..] == prefix[1..] + name;
      LastSegmentIsName(prefix[1..], name);
      LastSegmentAfterChar(s);
      EvenAfterChar(prefix);
      if |Split(s)| == 1 {
        OnlySegment(s);
      }
    }
  }

  lemma ReadsItsName(typeName: string, p: Permission)
    ensures Name(p) != "" && ':' !in Name(p)
    ensures FromTypeName(typeName) == Some(p) <==> LastSegment(typeName) == Name(p)
  {
  }

  /** The exact meaning of a type name: a permission's own name, alone or behind a
      maximal run of colons of even, non-zero length. */
  lemma FromTypeNameIff(typeName: string, p: Permission)
    ensures FromTypeName(typeName) == Some(p) <==>
            exists prefix :: typeName == prefix + Name(p) && EvenColons(prefix)
  {
    var name := Name(p);
    ReadsItsName(typeName, p);
    if LastSegment(typeName) == name {
      LastSegmentIsSuffix(typeName);
      var prefix := typeName[..|typeName| - |name|];
      assert typeName == prefix + name;
      LastSegmentIsName(prefix, name);
    }
    forall prefix | typeName == prefix + name && EvenColons(prefix)
      ensures LastSegment(typeName) == name
    {
      LastSegmentIsName(prefix, name);
    }
  }

  lemma {:induction false} LastSegmentIsSuffix(s: string)
    ensures |LastSegment(s)| <= |s| && s[|s| - |LastSegment(s)|..] == LastSegment(s)
  {
    if |Split(s)| == 1 {
      OnlySegment(s);
    } else if s[..2] == "::" {
      LastSegmentIsSuffix(s[2..]);
      LastSegmentAfterSeparator(s);
    } else {
      LastSegmentIsSuffix(s[1..]);
      LastSegmentAfterChar(s);
    }
  }

  lemma TwoColonsBehind(path: string)
    requires path == "" || path[|path| - 1] != ':'
    ensures TrailingColons(path + "::") == 2
  {
    var prefix := path + "::";
    TwoColons();
    assert prefix[|path|..] == "::" && prefix[..|path|] == path;
    TrailingColonsOfTail(prefix, |path|);
  }

  /** Reading a name under any module path that does not end in a colon gives it back. */
  lemma FromTypeNameInvertsName(path: string, p: Permission)
    requires path == "" || path[|path| - 1] != ':'
    ensures FromTypeName(path + "::" + Name(p)) == Some(p)
    ensures FromTypeName(Name(p)) == Some(p)
  {
    ReadsItsName(path + "::" + Name(p), p);
    ReadsItsName(Name(p), p);
    TwoColonsBehind(path);
    LastSegmentIsName(path + "::", Name(p));
    SplitOfColonFree(Name(p));
  }

  /** Each of the four names, under any such path, is read as its own permission. */
  lemma FourNames(path: string)
    requires path == "" || path[|path| - 1] != ':'
    ensures FromTypeName(path + "::" + "MessagingSender") == Some(MessagingSender)
    ensures FromTypeName(path + "::" + "MessagingReader") == Some(MessagingReader)
    ensures FromTypeName(path + "::" + "MessagingEditor") == Some(MessagingEditor)
    ensures FromTypeName(path + "::" + "MessagingDeleter") == Some(MessagingDeleter)
  {
    FromTypeNameInvertsName(path, MessagingSender);
    FromTypeNameInvertsName(path, MessagingReader);
    FromTypeNameInvertsName(path, MessagingEditor);
    FromTypeNameInvertsName(path, MessagingDeleter);
  }
}
