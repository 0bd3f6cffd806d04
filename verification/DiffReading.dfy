/** Reading a printed diff back: the text tells the hunk that was printed. */
module DiffReading {
  import opened DiffPrinter
  import opened Text
  import Decimal

  /** The file named in the header, the four numbers of the hunk header, and the hunk. */
  function ReadDiff(text: string): (string, PrintedHunk)
  {
    var (first, afterFirst) := Cut(text, '\n');
    var (second, afterSecond) := Cut(afterFirst, '\n');
    var (header, body) := Cut(afterSecond, '\n');
    var (oldStart, a) := Cut(Cut(header, '-').1, ',');
    var (oldCount, b) := Cut(a, ' ');
    var (newStart, c) := Cut(Cut(b, '+').1, ',');
    var newCount := Cut(c, ' ').0;
    (if |second| < 6 then "" else second[6..],
     PrintedHunk(Decimal.Parse(oldStart), Decimal.Parse(oldCount), Decimal.Parse(newStart), Decimal.Parse(newCount),
                 body))
  }

  lemma DigitsOnly(n: nat, c: char)
    requires c < '0' || c > '9'
    ensures c !in Decimal.Print(n)
  {
  }

  /** The numbers of a hunk header. */
  lemma ReadHeader(a: string, b: string, c: string, d: string, header: string)
    requires ',' !in a && ' ' !in b && ',' !in c && ' ' !in d
    requires header == "@@ " + "-" + (a + "," + (b + " " + ("" + "+" + (c + "," + (d + " " + "@@")))))
    ensures var x := Cut(Cut(header, '-').1, ',');
      var y := Cut(x.1, ' ');
      var z := Cut(Cut(y.1, '+').1, ',');
      x.0 == a && y.0 == b && z.0 == c && Cut(z.1, ' ').0 == d
  {
    var last := d + " " + "@@";
    var third := c + "," + last;
    var plus := "" + "+" + third;
    var secondPart := b + " " + plus;
    var firstPart := a + "," + secondPart;
    CutAt("@@ ", '-', firstPart);
    CutAt(a, ',', secondPart);
    CutAt(b, ' ', plus);
    CutAt("", '+', third);
    CutAt(c, ',', last);
    CutAt(d, ' ', "@@");
  }

  /** Three lines and the rest. */
  lemma ReadLines(x: string, y: string, z: string, rest: string)
    requires '\n' !in x && '\n' !in y && '\n' !in z
    ensures var text := x + "\n" + (y + "\n" + (z + "\n" + rest));
      var (first, a) := Cut(text, '\n');
      var (second, b) := Cut(a, '\n');
      var (third, body) := Cut(b, '\n');
      first == x && second == y && third == z && body == rest
  {
    CutAt(x, '\n', y + "\n" + (z + "\n" + rest));
    CutAt(y, '\n', z + "\n" + rest);
    CutAt(z, '\n', rest);
  }

  lemma Assoc(a: string, b: string, c: string)
    ensures a + b + c == a + (b + c)
  {
  }

  lemma HeaderRegroup(a: string, b: string, c: string, d: string)
    ensures "@@ -" + a + "," + b + " +" + c + "," + d + " @@"
         == "@@ " + "-" + (a + "," + (b + " " + ("" + "+" + (c + "," + (d + " " + "@@")))))
  {
    var tail := d + " @@";
    assert "@@ -" == "@@ " + "-" && " +" == " " + ("" + "+") && d + " " + "@@" == tail;
    assert b + " +" + c + "," + tail == b + " " + ("" + "+" + (c + "," + tail));
    assert "@@ -" + a + "," + b + " +" + c + "," + d + " @@" == "@@ -" + (a + "," + (b + " +" + c + "," + tail));
  }

  lemma Eight(front: string, a: string, b: string, c: string, d: string, e: string, f: string, g: string, h: string)
    ensures front + a + b + c + d + e + f + g + h == front + (a + b + c + d + e + f + g + h)
  {
    Assoc(front, a, b);
    Assoc(front, a + b, c);
    Assoc(front, a + b + c, d);
    Assoc(front, a + b + c + d, e);
    Assoc(front, a + b + c + d + e, f);
    Assoc(front, a + b + c + d + e + f, g);
    Assoc(front, a + b + c + d + e + f + g, h);
  }

  lemma FrontLines(filePath: string, rest: string)
    ensures "--- a/" + filePath + "\n+++ b/" + filePath + "\n" + rest
         == ("--- a/" + filePath) + "\n" + (("+++ b/" + filePath) + "\n" + rest)
  {
    assert "\n+++ b/" == "\n" + "+++ b/";
  }

  lemma Ended(s: string, body: string)
    ensures s + " @@\n" + body == s + " @@" + "\n" + body
  {
    assert " @@\n" == " @@" + "\n";
  }

  lemma RenderedLines(filePath: string, h: PrintedHunk, header: string)
    requires header == "@@ -" + Decimal.Print(h.oldStart) + "," + Decimal.Print(h.oldCount) + " +"
                       + Decimal.Print(h.newStart) + "," + Decimal.Print(h.newCount) + " @@"
    ensures Rendered(filePath, h)
         == ("--- a/" + filePath) + "\n" + (("+++ b/" + filePath) + "\n" + (header + "\n" + h.body))
  {
    var front := "--- a/" + filePath + "\n+++ b/" + filePath + "\n";
    var a, b, c, d := Decimal.Print(h.oldStart), Decimal.Print(h.oldCount), Decimal.Print(h.newStart),
      Decimal.Print(h.newCount);
    var line := "@@ -" + a + "," + b + " +" + c + "," + d;
    Eight(front, "@@ -", a, ",", b, " +", c, ",", d);
    assert Rendered(filePath, h) == front + line + " @@\n" + h.body;
    Ended(front + line, h.body);
    Closing(front, line, h.body);
    FrontLines(filePath, line + " @@" + "\n" + h.body);
  }

  lemma Closing(front: string, line: string, body: string)
    ensures front + line + " @@" + "\n" + body == front + (line + " @@" + "\n" + body)
  {
    Assoc(front, line, " @@");
    Assoc(front, line + " @@", "\n");
    Assoc(front, line + " @@" + "\n", body);
  }

  predicate Natural(h: PrintedHunk) { h.oldStart >= 0 && h.oldCount >= 0 && h.newStart >= 0 && h.newCount >= 0 }

  lemma OneLine(a: nat, b: nat, c: nat, d: nat, header: string)
    requires header == "@@ -" + Decimal.Print(a) + "," + Decimal.Print(b) + " +" + Decimal.Print(c) + ","
                       + Decimal.Print(d) + " @@"
    ensures '\n' !in header
  {
    DigitsOnly(a, '\n');
    DigitsOnly(b, '\n');
    DigitsOnly(c, '\n');
    DigitsOnly(d, '\n');
  }

  lemma NumbersBack(h: PrintedHunk, header: string)
    requires Natural(h)
    requires header == "@@ -" + Decimal.Print(h.oldStart) + "," + Decimal.Print(h.oldCount) + " +"
                       + Decimal.Print(h.newStart) + "," + Decimal.Print(h.newCount) + " @@"
    ensures var x := Cut(Cut(header, '-').1, ',');
      var y := Cut(x.1, ' ');
      var z := Cut(Cut(y.1, '+').1, ',');
      && Decimal.Parse(x.0) == h.oldStart && Decimal.Parse(y.0) == h.oldCount
      && Decimal.Parse(z.0) == h.newStart && Decimal.Parse(Cut(z.1, ' ').0) == h.newCount
  {
    var a, b, c, d := Decimal.Print(h.oldStart), Decimal.Print(h.oldCount), Decimal.Print(h.newStart),
                      Decimal.Print(h.newCount);
    HeaderRegroup(a, b, c, d);
    DigitsOnly(h.oldStart, ',');
    DigitsOnly(h.oldCount, ' ');
    DigitsOnly(h.newStart, ',');
    DigitsOnly(h.newCount, ' ');
    ReadHeader(a, b, c, d, header);
    Decimal.ParsePrint(h.oldStart);
    Decimal.ParsePrint(h.oldCount);
    Decimal.ParsePrint(h.newStart);
    Decimal.ParsePrint(h.newCount);
  }

  lemma NoNewlineIn(prefix: string, filePath: string)
    requires '\n' !in prefix && '\n' !in filePath
    ensures '\n' !in prefix + filePath && (prefix + filePath)[|prefix|..] == filePath
  {
  }

  /** A printed diff tells its file and its hunk: reading it gives both back. */
  lemma ReadsBack(filePath: string, h: PrintedHunk)
    requires '\n' !in filePath && Natural(h)
    ensures ReadDiff(Rendered(filePath, h)) == (filePath, h)
  {
    var header := "@@ -" + Decimal.Print(h.oldStart) + "," + Decimal.Print(h.oldCount) + " +"
                  + Decimal.Print(h.newStart) + "," + Decimal.Print(h.newCount) + " @@";
    RenderedLines(filePath, h, header);
    OneLine(h.oldStart, h.oldCount, h.newStart, h.newCount, header);
    NoNewlineIn("--- a/", filePath);
    NoNewlineIn("+++ b/", filePath);
    ReadLines("--- a/" + filePath, "+++ b/" + filePath, header, h.body);
    NumbersBack(h, header);
  }

  /** What the printer returns for two different texts, unless it is cut, names the file and applies to the old text:
      the hunk read from it, with the counts it states, gives the new text's lines. */
  lemma PrintedTextApplies(filePath: string, p: Parts, old_: string, new_: string)
    requires '\n' !in filePath && IsChange(p, Split(old_), Split(new_))
    requires |Rendered(filePath, Printed(p))| <= 5000
    ensures var (name, h) := ReadDiff(Shortened(Rendered(filePath, Printed(p))));
      && name == filePath && HeaderHolds(h, Split(old_), Split(new_))
      && Reapplied(old_, h).Ok? && |Reapplied(old_, h).value| == |Split(new_)|
      && ReadsLike(Reapplied(old_, h).value, 0, Split(new_))
  {
    ReadsBack(filePath, Printed(p));
    RoundTripLines(p, old_, new_);
    HeaderMatchesBody(p, old_, new_);
  }

  /** Around the change stand three lines of context on each side, or all there are when there are fewer. */
  lemma ContextShown(p: Parts)
    ensures var h := Printed(p);
      var before := if |p.head| < 3 then |p.head| else 3;
      var after := if |p.tail| < 3 then |p.tail| else 3;
      && h.oldStart == h.newStart == |p.head| - before + 1
      && h.oldCount == before + |p.gone| + after && h.newCount == before + |p.added| + after
  {
  }
}
