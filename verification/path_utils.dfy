/** `is_hidden` (utils.py): a path is hidden when its last component starts with a dot. */
module PathUtils {
  import opened Text

  /** A path as `os.fspath` returns it: text, or raw bytes. */
  datatype FsPath = TextPath(text: string) | BytesPath(bytes: seq<Byte>)

  const SlashByte: Byte := 0x2F
  const DotByte: Byte := 0x2E

  /**
   * `os.path.basename` (POSIX): everything after the last separator, which holds no separator
   * (that it is the whole tail after the last one is `BasenameIsLastComponent`).
   */
  function Basename<C(==)>(p: seq<C>, sep: C): (b: seq<C>)
    ensures sep !in b
    ensures |b| <= |p|
    decreases |p|
  {
    if |p| == 0 then []
    else if p[|p| - 1] == sep then []
    else Basename(p[..|p| - 1], sep) + [p[|p| - 1]]
  }

  /** The basename is a suffix of the path, and a separator comes just before it if anything does. */
  lemma {:induction false} BasenameIsLastComponent<C>(p: seq<C>, sep: C)
    ensures p[|p| - |Basename(p, sep)|..] == Basename(p, sep)
    ensures |Basename(p, sep)| < |p| ==> p[|p| - |Basename(p, sep)| - 1] == sep
    decreases |p|
  {
    if |p| > 0 && p[|p| - 1] != sep {
      var init := p[..|p| - 1];
      var r := Basename(init, sep);
      BasenameIsLastComponent(init, sep);
      assert p[|p| - |r| - 1..] == init[|init| - |r|..] + [p[|p| - 1]];
    }
  }

  predicate StartsWithUnit<C(==)>(s: seq<C>, dot: C)
  {
    |s| > 0 && s[0] == dot
  }

  /** The dot is looked for in the same kind (text or bytes) as the path. */
  predicate IsHidden(path: FsPath)
  {
    match path
    case TextPath(t) => StartsWithUnit(Basename(t, '/'), '.')
    case BytesPath(b) => StartsWithUnit(Basename(b, SlashByte), DotByte)
  }

  /** A path without a separator is its own basename. */
  lemma {:induction false} BasenameNoSeparator<C>(p: seq<C>, sep: C)
    requires sep !in p
    ensures Basename(p, sep) == p
    decreases |p|
  {
    if |p| > 0 {
      assert p[|p| - 1] in p;
      BasenameNoSeparator(p[..|p| - 1], sep);
      assert p[..|p| - 1] + [p[|p| - 1]] == p;
    }
  }

  /** The basename of `dir/name` is `name` whenever `name` holds no separator. */
  lemma {:induction false} BasenameOfJoin<C>(dir: seq<C>, sep: C, name: seq<C>)
    requires sep !in name
    ensures Basename(dir + [sep] + name, sep) == name
    decreases |name|
  {
    var p := dir + [sep] + name;
    if |name| == 0 {
      assert p[|p| - 1] == sep;
    } else {
      assert p[..|p| - 1] == dir + [sep] + name[..|name| - 1];
      assert name[|name| - 1] in name;
      BasenameOfJoin(dir, sep, name[..|name| - 1]);
      assert name[..|name| - 1] + [name[|name| - 1]] == name;
    }
  }

  /** Only the last component decides: `dir/name` is hidden iff `name` starts with a dot. */
  lemma HiddenIffLastComponent(dir: string, name: string)
    requires '/' !in name
    ensures IsHidden(TextPath(dir + "/" + name)) <==> (|name| > 0 && name[0] == '.')
  {
    BasenameOfJoin(dir, '/', name);
  }

  /** A file inside a hidden directory is not itself hidden. */
  lemma InsideHiddenDirectory(dir: string, name: string)
    requires '/' !in name && (|name| == 0 || name[0] != '.')
    ensures !IsHidden(TextPath("." + dir + "/" + name))
  {
    HiddenIffLastComponent("." + dir, name);
  }

  /** A path ending in a separator has an empty basename and is never hidden. */
  lemma TrailingSeparatorNotHidden(p: string)
    ensures !IsHidden(TextPath(p + "/"))
    ensures IsAscii(p) ==> !IsHidden(BytesPath(EncodeAscii(p) + [SlashByte]))
  {
  }

  /** ASCII encoding of a text path (characters outside ASCII are not modelled). */
  function EncodeAscii(s: string): (b: seq<Byte>)
    requires IsAscii(s)
    ensures |b| == |s|
    ensures forall i :: 0 <= i < |s| ==> b[i] == s[i] as int
  {
    seq(|s|, i requires 0 <= i < |s| => s[i] as int)
  }

  predicate IsAscii(s: string)
  {
    forall i :: 0 <= i < |s| ==> s[i] as int < 128
  }

  /** The basename of an ASCII path is ASCII: it is a suffix of the path. */
  lemma BasenameAscii(s: string)
    requires IsAscii(s)
    ensures IsAscii(Basename(s, '/'))
  {
    BasenameIsLastComponent(s, '/');
    var b := Basename(s, '/');
    forall i | 0 <= i < |b|
      ensures b[i] as int < 128
    {
      assert b[i] == s[|s| - |b| + i];
    }
  }

  lemma EncodeAsciiSnoc(b: string, c: char)
    requires IsAscii(b) && c as int < 128
    ensures IsAscii(b + [c]) && EncodeAscii(b + [c]) == EncodeAscii(b) + [c as int]
  {
    assert forall i :: 0 <= i < |b| ==> (b + [c])[i] == b[i];
  }

  lemma EncodeAsciiInit(s: string)
    requires IsAscii(s) && |s| > 0
    ensures IsAscii(s[..|s| - 1]) && EncodeAscii(s)[..|s| - 1] == EncodeAscii(s[..|s| - 1])
    ensures EncodeAscii(s)[|s| - 1] == s[|s| - 1] as int
  {
  }

  lemma {:induction false} BasenameEncode(s: string)
    requires IsAscii(s)
    ensures IsAscii(Basename(s, '/')) && Basename(EncodeAscii(s), SlashByte) == EncodeAscii(Basename(s, '/'))
    decreases |s|
  {
    BasenameAscii(s);
    if |s| > 0 {
      var init := s[..|s| - 1];
      var e := EncodeAscii(s);
      var last := s[|s| - 1];
      EncodeAsciiInit(s);
      if last == '/' {
        assert Basename(s, '/') == [];
        assert Basename(e, SlashByte) == [];
      } else {
        assert e[|e| - 1] != SlashByte;
        BasenameEncode(init);
        var b := Basename(init, '/');
        assert Basename(s, '/') == b + [last];
        assert Basename(e, SlashByte) == EncodeAscii(b) + [last as int];
        EncodeAsciiSnoc(b, last);
      }
    }
  }

  /** The text and byte forms of the same ASCII path agree on whether it is hidden. */
  lemma TextAndBytesAgree(s: string)
    requires IsAscii(s)
    ensures IsHidden(TextPath(s)) == IsHidden(BytesPath(EncodeAscii(s)))
  {
    BasenameEncode(s);
    BasenameIsLastComponent(s, '/');
    var b := Basename(s, '/');
    if |b| > 0 {
      assert b[0] == s[|s| - |b|];
    }
  }
}
