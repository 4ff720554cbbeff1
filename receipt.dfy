/** The thermal-printer receipt (`generateEscPosCommands` in
    frontend/src/pages/Orders.jsx): a list of ESC/POS commands and text
    lines, pushed one by one and joined.  The locale-formatted date and
    time of the order are parameters; sending the bytes to a printer is
    not part of this model. */
module Receipt {
  import opened Common
  import opened Text
  import opened Seqs

  const ESC: char := '\U{1B}'
  const GS: char := '\U{1D}'

  /** ESC @: initialise the printer. */
  const INIT: string := [ESC, '@']
  /** ESC t 8: the Arabic code page. */
  const CODE_PAGE: string := [ESC, 't', '\U{08}']
  const ALIGN_CENTER: string := [ESC, 'a', '\U{01}']
  const ALIGN_RIGHT: string := [ESC, 'a', '\U{02}']
  /** ESC ! n: the text size and emphasis; 0 resets. */
  const DOUBLE_SIZE: string := [ESC, '!', '\U{30}']
  const EMPHASISED: string := [ESC, '!', '\U{08}']
  const RESET_SIZE: string := [ESC, '!', '\U{00}']
  /** Three line feeds, then GS V 'A' 0x10: feed and cut. */
  const FEED_AND_CUT: string := "\n\n\n" + [GS, 'V', 'A', '\U{10}']

  const RULE: string := "------------------------------\n"
  const TITLE: string := "فاتورة شراء\n"
  const STORE_NAME: string := "مخبزنا اللذيذ\n"
  const STORE_ADDRESS: string := "123 شارع المخبز، المدينة\n"
  const STORE_PHONE: string := "الهاتف: 0987383883\n"
  const COLUMNS: string := "الصنف                الكمية    السعر\n"
  const THANKS: string := "شكراً لكم على زيارتكم\n"
  const GOOD_DAY: string := "نتمنى لكم يوماً سعيداً\n"

  /** An order item as the receipt reads it; prices are whole amounts. */
  datatype ReceiptItem = ReceiptItem(name: string, quantity: int, price: int)

  datatype ReceiptOrder = ReceiptOrder(id: string, items: seq<ReceiptItem>, amount: int)

  /** `n.toString()` for an integer: a minus sign exactly when `n` is
      negative, then digits only. */
  function ShowInt(n: int): (s: string)
    ensures |s| >= 1
    ensures n < 0 <==> s[0] == '-'
    ensures forall i :: 0 <= i < |s| ==> IsDigit(s[i]) || (i == 0 && s[i] == '-')
  {
    if n < 0 then "-" + NatToString(-n) else NatToString(n)
  }

  /** `parseInt` reads `n` back from its text, whatever non-digit text
      follows it. */
  lemma ShowIntReadsBack(n: int, rest: string)
    requires rest == [] || !IsDigit(rest[0])
    ensures ParseInt(ShowInt(n) + rest) == Some(n)
  {
    var m: nat := if n < 0 then -n else n;
    NatToStringRoundTrip(m);
    if n < 0 {
      ParseIntOfNegative(NatToString(m), rest);
      assert ShowInt(n) + rest == "-" + NatToString(m) + rest;
    } else {
      ParseIntOfDigits(NatToString(m), rest);
    }
  }

  /** `n.toFixed(2)` for an integer: the integer's text, then ".00". */
  function ToFixed2(n: int): (s: string)
    ensures |s| >= 4 && s[|s| - 3..] == ".00"
    ensures forall i :: 0 <= i < |s| ==> IsDigit(s[i]) || s[i] == '-' || s[i] == '.'
  {
    ShowInt(n) + ".00"
  }

  /** `parseInt(n.toFixed(2)) === n`: the text before the decimals is the
      integer's own. */
  lemma ToFixed2ReadsBack(n: int)
    ensures ParseInt(ToFixed2(n)) == Some(n)
  {
    ShowIntReadsBack(n, ".00");
  }

  /** `s.slice(-n)` */
  function LastN(s: string, n: nat): (r: string)
    ensures |r| == Min(|s|, n) && r == s[|s| - |r|..]
  {
    if |s| >= n then s[|s| - n..] else s
  }

  /** The name as printed: longer than 16 characters, it is cut to 13 and
      "..." is added. */
  function ShownName(name: string): (r: string)
    ensures |r| <= 16
    ensures |name| > 16 ==> |r| == 16 && r[..13] == name[..13] && r[13..] == "..."
    ensures |name| <= 16 ==> r == name
  {
    if |name| > 16 then name[..13] + "..." else name
  }

  /** The item line template `${name} ${quantity}      ${price}\n`. */
  function Row(name: string, quantity: string, price: string): string {
    name + " " + quantity + "      " + price + "\n"
  }

  /** One item's line: the name padded to 20, the quantity right-aligned
      in 2, the price right-aligned in 6. */
  function ItemLine(item: ReceiptItem): string {
    Row(PadEnd(ShownName(item.name), 20), PadStart(ShowInt(item.quantity), 2, ' '), PadStart(ToFixed2(item.price), 6, ' '))
  }

  /** A section printed in `mode`, then the size reset. */
  function Sized(mode: string, lines: seq<string>): seq<string> {
    [mode] + lines + [RESET_SIZE]
  }

  /** Initialisation, code page and the centred, double-size title. */
  function Opening(): seq<string> {
    [INIT, CODE_PAGE, ALIGN_CENTER] + Sized(DOUBLE_SIZE, [TITLE])
  }

  /** The store, the order's date, time and last six id characters, and
      the emphasised column headings. */
  function Heading(order: ReceiptOrder, date: string, time: string): seq<string> {
    HeadingTexts(order, date, time) + Sized(EMPHASISED, [COLUMNS]) + [RULE]
  }

  /** The commands before the items. */
  function Preamble(order: ReceiptOrder, date: string, time: string): seq<string> {
    Opening() + Heading(order, date, time)
  }

  /** The commands after the items: the emphasised total, the greeting and
      the cut. */
  function Closing(order: ReceiptOrder): seq<string> {
    ["\n"] + Sized(EMPHASISED, ["المجموع: " + PadStart(ToFixed2(order.amount), 10, ' ') + "\n"])
    + ["\n", THANKS, GOOD_DAY, FEED_AND_CUT]
  }

  /** One line per item, in order. */
  function ItemCommands(items: seq<ReceiptItem>): seq<string> {
    Map(items, ItemLine)
  }

  function ReceiptCommands(order: ReceiptOrder, date: string, time: string): seq<string> {
    Preamble(order, date, time) + ItemCommands(order.items) + Closing(order)
  }

  /** `commands.join('')` */
  function Concat(cmds: seq<string>): string {
    if cmds == [] then "" else cmds[0] + Concat(cmds[1..])
  }

  /** generateEscPosCommands: the preamble, one push per item in order,
      the closing commands, joined. */
  method GenerateEscPosCommands(order: ReceiptOrder, date: string, time: string) returns (receipt: string)
    ensures receipt == Concat(ReceiptCommands(order, date, time))
  {
    ghost var pre := Preamble(order, date, time);
    var commands := Preamble(order, date, time);
    var i := 0;
    while i < |order.items|
      invariant 0 <= i <= |order.items|
      invariant commands == pre + ItemCommands(order.items[..i])
    {
      PushItemLine(order.items, i, pre, commands);
      commands := commands + [ItemLine(order.items[i])];
      i := i + 1;
    }
    assert order.items[..i] == order.items;
    commands := commands + Closing(order);
    receipt := Concat(commands);
  }

  /** One pass of the item loop extends the pushed lines by the item's. */
  lemma PushItemLine(items: seq<ReceiptItem>, i: nat, pre: seq<string>, commands: seq<string>)
    requires i < |items| && commands == pre + ItemCommands(items[..i])
    ensures commands + [ItemLine(items[i])] == pre + ItemCommands(items[..i + 1])
  {
    MapSnoc(items, ItemLine, i);
  }

  lemma {:induction false} ConcatAppend(a: seq<string>, b: seq<string>)
    ensures Concat(a + b) == Concat(a) + Concat(b)
  {
    if a == [] {
      assert a + b == b;
    } else {
      assert (a + b)[1..] == a[1..] + b;
      ConcatAppend(a[1..], b);
    }
  }

  /** The joined text of a list begins with its first two commands and
      ends with its last. */
  lemma ConcatEnds(a: string, b: string, mid: seq<string>, z: string)
    ensures Concat([a, b] + mid + [z]) == a + b + Concat(mid) + z
  {
    ConcatAppend([a, b] + mid, [z]);
    ConcatAppend([a, b], mid);
    assert Concat([z]) == z + Concat([]);
    assert Concat([a, b]) == a + Concat([b]);
    assert Concat([b]) == b + Concat([]);
  }

  /** A list of three or more commands joins to a text that begins with
      the first two and ends with the last. */
  lemma ConcatFrame(cmds: seq<string>)
    requires |cmds| >= 3
    ensures var r := Concat(cmds);
      && StartsWith(r, cmds[0] + cmds[1])
      && |r| >= |cmds[|cmds| - 1]| && r[|r| - |cmds[|cmds| - 1]|..] == cmds[|cmds| - 1]
  {
    var a, b, z := cmds[0], cmds[1], cmds[|cmds| - 1];
    var mid := cmds[2..|cmds| - 1];
    assert cmds == [a, b] + mid + [z];
    ConcatEnds(a, b, mid, z);
    Framed(a + b, Concat(mid), z);
  }

  lemma Framed(head: string, mid: string, z: string)
    ensures StartsWith(head + mid + z, head)
    ensures var r := head + mid + z; r[|r| - |z|..] == z
  {
    var r := head + mid + z;
    assert r == head + (mid + z);
    assert r[..|head|] == head;
  }

  lemma ReceiptCommandsEnds(order: ReceiptOrder, date: string, time: string)
    ensures var cmds := ReceiptCommands(order, date, time);
      |cmds| >= 3 && cmds[0] == INIT && cmds[1] == CODE_PAGE && cmds[|cmds| - 1] == FEED_AND_CUT
  {
    var pre := Preamble(order, date, time);
    assert pre[0] == INIT && pre[1] == CODE_PAGE;
    var post := Closing(order);
    assert post[|post| - 1] == FEED_AND_CUT;
  }

  /** The receipt starts by initialising the printer and selecting the
      code page, and ends with the feed and cut. */
  lemma ReceiptFrame(order: ReceiptOrder, date: string, time: string)
    ensures var r := Concat(ReceiptCommands(order, date, time));
      && StartsWith(r, INIT + CODE_PAGE)
      && |r| >= |FEED_AND_CUT| && r[|r| - |FEED_AND_CUT|..] == FEED_AND_CUT
  {
    ReceiptCommandsEnds(order, date, time);
    ConcatFrame(ReceiptCommands(order, date, time));
  }

  /** A command that sets the text size: ESC ! and one byte. */
  predicate IsSizeCommand(c: string) {
    |c| == 3 && c[0] == ESC && c[1] == '!'
  }

  lemma NoSizeCommand(cmds: seq<string>)
    requires forall c :: c in cmds ==> !IsSizeCommand(c)
    ensures Filter(cmds, IsSizeCommand) == []
  {
    if Filter(cmds, IsSizeCommand) != [] {
      assert Filter(cmds, IsSizeCommand)[0] in Filter(cmds, IsSizeCommand);
    }
  }

  /** A sized section contributes its mode and then the reset. */
  lemma SizedFilter(mode: string, lines: seq<string>)
    requires IsSizeCommand(mode)
    requires forall c :: c in lines ==> !IsSizeCommand(c)
    ensures Filter(Sized(mode, lines), IsSizeCommand) == [mode, RESET_SIZE]
  {
    NoSizeCommand(lines);
    FilterAppend([mode] + lines, [RESET_SIZE], IsSizeCommand);
    FilterAppend([mode], lines, IsSizeCommand);
    assert Filter([mode], IsSizeCommand) == [mode] + Filter([], IsSizeCommand);
    assert Filter([RESET_SIZE], IsSizeCommand) == [RESET_SIZE] + Filter([], IsSizeCommand);
  }

  lemma ItemLineNotSize(item: ReceiptItem)
    ensures |ItemLine(item)| > 3
  {
  }

  /** A line that starts with a given character other than ESC is no size
      command. */
  lemma TextNotSize(head: string, rest: string)
    requires |head| > 0 && head[0] != ESC
    ensures !IsSizeCommand(head + rest)
  {
    assert (head + rest)[0] == head[0];
  }

  /** The plain lines of the heading. */
  function HeadingTexts(order: ReceiptOrder, date: string, time: string): seq<string> {
    [STORE_NAME, STORE_ADDRESS, STORE_PHONE, "\n",
     ALIGN_RIGHT, "التاريخ: " + date + "\n", "الوقت: " + time + "\n",
     "رقم الفاتورة: " + LastN(order.id, 6) + "\n", RULE]
  }

  lemma StoreLinesNotSize()
    ensures !IsSizeCommand(STORE_NAME) && !IsSizeCommand(STORE_ADDRESS) && !IsSizeCommand(STORE_PHONE)
    ensures !IsSizeCommand("\n") && !IsSizeCommand(ALIGN_RIGHT) && !IsSizeCommand(RULE)
  {
  }

  lemma OrderLinesNotSize(order: ReceiptOrder, date: string, time: string)
    ensures !IsSizeCommand("التاريخ: " + date + "\n")
    ensures !IsSizeCommand("الوقت: " + time + "\n")
    ensures !IsSizeCommand("رقم الفاتورة: " + LastN(order.id, 6) + "\n")
  {
    TextNotSize("التاريخ: ", date + "\n");
    TextNotSize("الوقت: ", time + "\n");
    TextNotSize("رقم الفاتورة: ", LastN(order.id, 6) + "\n");
  }

  lemma HeadingTextsNotSize(order: ReceiptOrder, date: string, time: string)
    ensures Filter(HeadingTexts(order, date, time), IsSizeCommand) == []
  {
    StoreLinesNotSize();
    OrderLinesNotSize(order, date, time);
    NoSizeCommand(HeadingTexts(order, date, time));
  }

  /** Plain lines, a sized section, plain lines: the section's mode and
      its reset are the only size commands. */
  lemma SectionFilter(before: seq<string>, mode: string, lines: seq<string>, after: seq<string>)
    requires IsSizeCommand(mode)
    requires forall c :: c in lines ==> !IsSizeCommand(c)
    requires Filter(before, IsSizeCommand) == [] && Filter(after, IsSizeCommand) == []
    ensures Filter(before + Sized(mode, lines) + after, IsSizeCommand) == [mode, RESET_SIZE]
  {
    SizedFilter(mode, lines);
    FilterAppend(before + Sized(mode, lines), after, IsSizeCommand);
    FilterAppend(before, Sized(mode, lines), IsSizeCommand);
  }

  lemma OpeningSizes()
    ensures Filter(Opening(), IsSizeCommand) == [DOUBLE_SIZE, RESET_SIZE]
  {
    NoSizeCommand([INIT, CODE_PAGE, ALIGN_CENTER]);
    NoSizeCommand([]);
    SectionFilter([INIT, CODE_PAGE, ALIGN_CENTER], DOUBLE_SIZE, [TITLE], []);
    assert Opening() == [INIT, CODE_PAGE, ALIGN_CENTER] + Sized(DOUBLE_SIZE, [TITLE]) + [];
  }

  lemma HeadingSizes(order: ReceiptOrder, date: string, time: string)
    ensures Filter(Heading(order, date, time), IsSizeCommand) == [EMPHASISED, RESET_SIZE]
  {
    HeadingTextsNotSize(order, date, time);
    NoSizeCommand([RULE]);
    SectionFilter(HeadingTexts(order, date, time), EMPHASISED, [COLUMNS], [RULE]);
  }

  lemma ClosingSizes(order: ReceiptOrder)
    ensures Filter(Closing(order), IsSizeCommand) == [EMPHASISED, RESET_SIZE]
  {
    var total := "المجموع: " + PadStart(ToFixed2(order.amount), 10, ' ') + "\n";
    TextNotSize("المجموع: ", PadStart(ToFixed2(order.amount), 10, ' ') + "\n");
    NoSizeCommand(["\n"]);
    NoSizeCommand(["\n", THANKS, GOOD_DAY, FEED_AND_CUT]);
    SectionFilter(["\n"], EMPHASISED, [total], ["\n", THANKS, GOOD_DAY, FEED_AND_CUT]);
  }

  lemma FilterAppend4(a: seq<string>, b: seq<string>, c: seq<string>, d: seq<string>)
    ensures Filter(a + b + c + d, IsSizeCommand)
      == Filter(a, IsSizeCommand) + Filter(b, IsSizeCommand) + Filter(c, IsSizeCommand) + Filter(d, IsSizeCommand)
  {
    FilterAppend(a + b + c, d, IsSizeCommand);
    FilterAppend(a + b, c, IsSizeCommand);
    FilterAppend(a, b, IsSizeCommand);
  }

  /** The size commands, in order: every double-size or emphasised section
      is followed by a reset before the next one, and the receipt ends at
      the normal size. */
  lemma SizeAlwaysReset(order: ReceiptOrder, date: string, time: string)
    ensures Filter(ReceiptCommands(order, date, time), IsSizeCommand)
      == [DOUBLE_SIZE, RESET_SIZE, EMPHASISED, RESET_SIZE, EMPHASISED, RESET_SIZE]
  {
    ItemsNotSize(order.items);
    OpeningSizes();
    HeadingSizes(order, date, time);
    ClosingSizes(order);
    var cmds := ReceiptCommands(order, date, time);
    assert cmds == Opening() + Heading(order, date, time) + ItemCommands(order.items) + Closing(order);
    FilterAppend4(Opening(), Heading(order, date, time), ItemCommands(order.items), Closing(order));
    SizeListJoined();
  }

  lemma SizeListJoined()
    ensures [DOUBLE_SIZE, RESET_SIZE] + [EMPHASISED, RESET_SIZE] + [] + [EMPHASISED, RESET_SIZE]
      == [DOUBLE_SIZE, RESET_SIZE, EMPHASISED, RESET_SIZE, EMPHASISED, RESET_SIZE]
  {
  }

  lemma ItemsNotSize(items: seq<ReceiptItem>)
    ensures Filter(ItemCommands(items), IsSizeCommand) == []
  {
    var cmds := ItemCommands(items);
    forall c | c in cmds ensures !IsSizeCommand(c) {
      var k :| 0 <= k < |items| && cmds[k] == c;
      ItemLineNotSize(items[k]);
    }
    NoSizeCommand(cmds);
  }

  /** How many times `c` occurs in `s`. */
  function Occurrences(s: string, c: char): nat {
    if s == [] then 0 else (if s[0] == c then 1 else 0) + Occurrences(s[1..], c)
  }

  lemma {:induction false} OccurrencesAppend(a: string, b: string, c: char)
    ensures Occurrences(a + b, c) == Occurrences(a, c) + Occurrences(b, c)
  {
    if a == [] {
      assert a + b == b;
    } else {
      assert (a + b)[1..] == a[1..] + b;
      OccurrencesAppend(a[1..], b, c);
    }
  }

  lemma {:induction false} NoOccurrence(s: string, c: char)
    requires forall i :: 0 <= i < |s| ==> s[i] != c
    ensures Occurrences(s, c) == 0
  {
    if s != [] {
      NoOccurrence(s[1..], c);
    }
  }

  predicate NoNewline(s: string) {
    forall i :: 0 <= i < |s| ==> s[i] != '\n'
  }

  lemma PadEndNoNewline(s: string, width: nat)
    requires NoNewline(s)
    ensures NoNewline(PadEnd(s, width))
  {
  }

  lemma PadStartNoNewline(s: string, width: nat)
    requires NoNewline(s)
    ensures NoNewline(PadStart(s, width, ' '))
  {
    var r := PadStart(s, width, ' ');
    forall i | 0 <= i < |r| ensures r[i] != '\n' {
      if i >= |r| - |s| {
        assert r[i] == r[|r| - |s|..][i - (|r| - |s|)];
      }
    }
  }

  lemma ShownNameNoNewline(name: string)
    requires NoNewline(name)
    ensures NoNewline(ShownName(name))
  {
    if |name| > 16 {
      var r := ShownName(name);
      forall i | 0 <= i < 16 ensures r[i] != '\n' {
        if i < 13 {
          assert r[i] == name[i];
        }
      }
    }
  }

  /** The template holds one line break, at its end, when its fields hold
      none. */
  lemma RowOneLine(n: string, q: string, p: string)
    requires NoNewline(n) && NoNewline(q) && NoNewline(p)
    ensures Occurrences(Row(n, q, p), '\n') == 1
    ensures Row(n, q, p)[|Row(n, q, p)| - 1] == '\n'
  {
    var body := n + " " + q + "      " + p;
    assert Row(n, q, p) == body + "\n";
    assert NoNewline(body);
    NoOccurrence(body, '\n');
    OccurrencesAppend(body, "\n", '\n');
  }

  /** An item's line holds exactly one line break, at its end, when the
      item's name has none. */
  lemma ItemLineIsOneLine(item: ReceiptItem)
    requires NoNewline(item.name)
    ensures Occurrences(ItemLine(item), '\n') == 1
    ensures ItemLine(item)[|ItemLine(item)| - 1] == '\n'
  {
    ShownNameNoNewline(item.name);
    PadEndNoNewline(ShownName(item.name), 20);
    PadStartNoNewline(ShowInt(item.quantity), 2);
    PadStartNoNewline(ToFixed2(item.price), 6);
    RowOneLine(PadEnd(ShownName(item.name), 20), PadStart(ShowInt(item.quantity), 2, ' '), PadStart(ToFixed2(item.price), 6, ' '));
  }

  /** The item section prints exactly one line per item, in order. */
  lemma {:induction false} OneLinePerItem(items: seq<ReceiptItem>)
    requires forall k :: 0 <= k < |items| ==> NoNewline(items[k].name)
    ensures Occurrences(Concat(ItemCommands(items)), '\n') == |items|
  {
    if items != [] {
      OneLinePerItem(items[1..]);
      ItemLineIsOneLine(items[0]);
      MapCons(items, ItemLine);
      var cmds, rest := ItemCommands(items), ItemCommands(items[1..]);
      assert Concat(cmds) == ItemLine(items[0]) + Concat(rest);
      OccurrencesAppend(ItemLine(items[0]), Concat(rest), '\n');
    }
  }

  lemma RowColumns(n: string, q: string, p: string)
    requires |n| == 20 && |q| == 2
    ensures var l := Row(n, q, p);
      l[..20] == n && l[20] == ' ' && l[21..23] == q && l[23..29] == "      "
  {
  }

  /** An item's line begins with its shown name padded to 20 columns,
      then a space, and the quantity sits right-aligned in the next two. */
  lemma ItemLineColumns(item: ReceiptItem)
    requires -10 < item.quantity < 100
    ensures var l := ItemLine(item);
      && l[..20] == PadEnd(ShownName(item.name), 20)
      && l[20] == ' '
      && l[21..23] == PadStart(ShowInt(item.quantity), 2, ' ')
      && l[23..29] == "      "
  {
    assert |ShowInt(item.quantity)| <= 2;
    RowColumns(PadEnd(ShownName(item.name), 20), PadStart(ShowInt(item.quantity), 2, ' '), PadStart(ToFixed2(item.price), 6, ' '));
  }
}
