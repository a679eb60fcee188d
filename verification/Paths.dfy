/** Where the server keeps a client's file (file_handler.py): the path it computes, and the file
    that path leads to. */
module Paths {
  import opened Octets

  const SLASH: byte := 47
  const DOT: byte := 46

  /** The server's directory, and the file that a path string names once it is opened: two strings
      may name one file, as "a/../b" and "b" do. */
  datatype FileSystem = FileSystem(root: Bytes, file: Bytes -> Bytes)

  /** `bytes.hex()`, in lower case. */
  function LowerHex(id: Bytes): (t: Bytes)
    ensures |t| == 2 * |id|
  {
    if id == [] then []
    else
      DigitBound(id[0]);
      [LowerDigit(Digit(id[0]) / 16), LowerDigit(Digit(id[0]) % 16)] + LowerHex(id[1..])
  }

  function LowerDigit(v: nat): byte
    requires v < 16
  {
    ToByte(if v < 10 then 48 + v else 87 + v)
  }

  lemma LowerDigitInjective(v: nat, w: nat)
    requires v < 16 && w < 16
    ensures LowerDigit(v) == LowerDigit(w) <==> v == w
  {
    hide Digit, ToByte;
    DigitOfByte(if v < 10 then 48 + v else 87 + v);
    DigitOfByte(if w < 10 then 48 + w else 87 + w);
  }

  lemma NibblesDetermine(x: byte, y: byte)
    ensures Digit(x) < 256 && Digit(y) < 256
    ensures Digit(x) / 16 == Digit(y) / 16 && Digit(x) % 16 == Digit(y) % 16 ==> x == y
  {
    hide Digit;
    DigitBound(x);
    DigitBound(y);
    DigitsDetermine(x, y);
  }

  lemma {:induction false} LowerHexInjective(a: Bytes, b: Bytes)
    requires |a| == |b|
    ensures LowerHex(a) == LowerHex(b) <==> a == b
    decreases |a|
  {
    hide Digit, LowerDigit;
    if a != [] && LowerHex(a) == LowerHex(b) {
      NibblesDetermine(a[0], b[0]);
      assert LowerHex(a)[0] == LowerHex(b)[0] && LowerHex(a)[1] == LowerHex(b)[1];
      LowerDigitInjective(Digit(a[0]) / 16, Digit(b[0]) / 16);
      LowerDigitInjective(Digit(a[0]) % 16, Digit(b[0]) % 16);
      assert LowerHex(a)[2..] == LowerHex(a[1..]) && LowerHex(b)[2..] == LowerHex(b[1..]);
      LowerHexInjective(a[1..], b[1..]);
      assert a == [a[0]] + a[1..] && b == [b[0]] + b[1..];
    }
  }

  function ClientsDir(fs: FileSystem, id: Bytes): Bytes { fs.root + [SLASH] + LowerHex(id) }

  predicate Absolute(name: Bytes) { name != [] && name[0] == SLASH }

  /** `os.path.join`: an absolute name stands for itself, whoever sends it. */
  function FullPath(fs: FileSystem, id: Bytes, name: Bytes): Bytes {
    if Absolute(name) then name else ClientsDir(fs, id) + [SLASH] + name
  }

  /** Names that are not absolute keep clients and files apart. */
  lemma RelativePathsApart(fs: FileSystem, a: Bytes, n: Bytes, b: Bytes, m: Bytes)
    requires |a| == |b| && !Absolute(n) && !Absolute(m)
    ensures FullPath(fs, a, n) == FullPath(fs, b, m) <==> a == b && n == m
  {
    if FullPath(fs, a, n) == FullPath(fs, b, m) {
      var start := |fs.root| + 1;
      var end := start + 2 * |a|;
      assert FullPath(fs, a, n)[start..end] == LowerHex(a) && FullPath(fs, b, m)[start..end] == LowerHex(b);
      assert FullPath(fs, a, n)[end + 1..] == n && FullPath(fs, b, m)[end + 1..] == m;
      LowerHexInjective(a, b);
    }
  }

  /** A name without a directory part, which opens in the client's own directory. */
  predicate Plain(name: Bytes) {
    name != [] && SLASH !in name && name != [DOT] && name != [DOT, DOT]
  }

  /** No links: the paths of plain names lead to different files. */
  ghost predicate PlainApart(fs: FileSystem) {
    forall a: Bytes, n: Bytes, b: Bytes, m: Bytes ::
      |a| == |b| && Plain(n) && Plain(m) && fs.file(FullPath(fs, a, n)) == fs.file(FullPath(fs, b, m))
      ==> a == b && n == m
  }

  lemma LowerDigitIs(v: nat)
    requires v < 16
    ensures Digit(LowerDigit(v)) == if v < 10 then 48 + v else 87 + v
  {
    hide Digit, ToByte;
    DigitOfByte(if v < 10 then 48 + v else 87 + v);
  }

  /** The number of a hex digit as a character: '0' to '9', 'a' to 'f'. */
  lemma {:induction false} LowerHexDigits(id: Bytes, k: nat)
    requires k < |id|
    ensures var d, t := Digit(id[k]), LowerHex(id);
      && Digit(t[2 * k]) == (if d / 16 < 10 then 48 + d / 16 else 87 + d / 16)
      && Digit(t[2 * k + 1]) == (if d % 16 < 10 then 48 + d % 16 else 87 + d % 16)
    decreases k
  {
    hide Digit, ToByte, LowerDigit;
    DigitBound(id[k]);
    DigitBound(id[0]);
    if k == 0 {
      LowerDigitIs(Digit(id[0]) / 16);
      LowerDigitIs(Digit(id[0]) % 16);
    } else {
      LowerHexDigits(id[1..], k - 1);
      assert LowerHex(id)[2..] == LowerHex(id[1..]);
    }
  }

  /** The two forms of a full path; 47 is the slash. */
  lemma PathForms(fs: FileSystem, id: Bytes, name: Bytes)
    ensures name != [] && name[0] == 47 ==> FullPath(fs, id, name) == name
    ensures !(name != [] && name[0] == 47) ==> FullPath(fs, id, name) == fs.root + [47] + LowerHex(id) + [47] + name
  {}

  /** "." and "..", whatever has a slash, and the empty name are not plain; everything else is. */
  lemma PlainExactly(name: Bytes)
    ensures Plain(name) <==> |name| > 0 && name != [46] && name != [46, 46] && forall c :: c in name ==> c != 47
  {}
}
