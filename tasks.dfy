/**
  The row layout of `generate_menu_xlsx` in app/tasks/tasks.py. The
  workbook library is abstracted to a map from (row, column) to a cell
  holding a style tag, whether the grey fill was applied, and a value. The
  task id is a parameter, and saving the workbook is not modelled.
*/
module Tasks {
  import opened Wrappers
  import opened Reports

  /** The number of columns styled on every row (`column_dimensions`). */
  const Columns: nat := 6

  /** `ExcelStyle.Header`, `ExcelStyle.BaseBold`, `ExcelStyle.Base`, and the
      style of a cell nothing was assigned to. */
  datatype Style = Plain | Header | BaseBold | Base

  datatype CellValue = Number(n: int) | Text(s: string)

  datatype Cell = Cell(style: Style, greyFill: bool, value: Option<CellValue>)

  type Sheet = map<(int, int), Cell>

  /** A cell never touched. */
  const Blank: Cell := Cell(Plain, false, None)

  function At(sheet: Sheet, row: int, col: int): Cell {
    if (row, col) in sheet then sheet[(row, col)] else Blank
  }

  // ------------------------------------------------------- the layout

  /** One spreadsheet row: the 1-based index within its parent and the
      record's texts. */
  datatype Line =
    | MenuLine(num: int, title: string, description: string)
    | SubmenuLine(num: int, title: string, description: string)
    | DishLine(num: int, title: string, description: string, price: string)

  /** The dish rows of one submenu. */
  function DishLines(ds: seq<DishReport>): seq<Line> {
    if ds == [] then []
    else
      var d := ds[|ds| - 1];
      DishLines(ds[..|ds| - 1]) + [DishLine(|ds|, d.title, d.description, d.price)]
  }

  /** The rows of a menu's submenus, each followed by its dishes. */
  function SubmenuLines(ss: seq<SubmenuReport>): seq<Line> {
    if ss == [] then []
    else
      var s := ss[|ss| - 1];
      SubmenuLines(ss[..|ss| - 1]) + [SubmenuLine(|ss|, s.title, s.description)] + DishLines(s.dishes)
  }

  /** The rows of the sheet in order: each menu, followed by its submenus. */
  function Layout(ms: seq<MenuReport>): (r: seq<Line>)
    ensures |ms| > 0 ==> |r| > 0 && r[0] == MenuLine(1, ms[0].title, ms[0].description)
  {
    if ms == [] then []
    else
      var m := ms[|ms| - 1];
      Layout(ms[..|ms| - 1]) + [MenuLine(|ms|, m.title, m.description)] + SubmenuLines(m.submenus)
  }

  /** The cell a row of the layout puts in a column: all six columns styled,
      values in columns 1-3 for a menu, 2-4 for a submenu and 3-6 for a dish. */
  function CellOf(line: Line, col: int): Cell {
    match line
    case MenuLine(n, t, d) =>
      Cell(Header, true,
        if col == 1 then Some(Number(n)) else if col == 2 then Some(Text(t))
        else if col == 3 then Some(Text(d)) else None)
    case SubmenuLine(n, t, d) =>
      Cell(BaseBold, false,
        if col == 2 then Some(Number(n)) else if col == 3 then Some(Text(t))
        else if col == 4 then Some(Text(d)) else None)
    case DishLine(n, t, d, p) =>
      Cell(Base, false,
        if col == 3 then Some(Number(n)) else if col == 4 then Some(Text(t))
        else if col == 5 then Some(Text(d)) else if col == 6 then Some(Text(p)) else None)
  }

  /** The sheet holds exactly the rows of `lines`, row 1 first, with no gap
      and nothing outside the six columns. */
  ghost predicate Shows(sheet: Sheet, lines: seq<Line>) {
    && (forall p | p in sheet :: 1 <= p.0 <= |lines| && 1 <= p.1 <= Columns)
    && (forall r, c | 1 <= r <= |lines| && 1 <= c <= Columns :: (r, c) in sheet && sheet[(r, c)] == CellOf(lines[r - 1], c))
  }

  // ------------------------------------------------------- the writer

  /** The `for col_number in range(1, 7)` loop: assigns `style` to every cell
      of the row, which replaces the cell's whole style, fill included, so the
      grey fill is there exactly when asked for. */
  method StyleRow(sheet: Sheet, row: int, style: Style, grey: bool) returns (sheet': Sheet)
    ensures forall c | 1 <= c <= Columns ::
      (row, c) in sheet' && sheet'[(row, c)] == At(sheet, row, c).(style := style, greyFill := grey)
    ensures forall p | p in sheet' :: p in sheet || (p.0 == row && 1 <= p.1 <= Columns)
    ensures forall p | p in sheet && (p.0 != row || p.1 < 1 || p.1 > Columns) :: p in sheet' && sheet'[p] == sheet[p]
  {
    sheet' := sheet;
    for col := 1 to Columns + 1
      invariant forall c | 1 <= c < col ::
        (row, c) in sheet' && sheet'[(row, c)] == At(sheet, row, c).(style := style, greyFill := grey)
      invariant forall p | p in sheet' :: p in sheet || (p.0 == row && 1 <= p.1 < col)
      invariant forall p | p in sheet && (p.0 != row || p.1 < 1 || p.1 >= col) :: p in sheet' && sheet'[p] == sheet[p]
    {
      sheet' := sheet'[(row, col) := At(sheet', row, col).(style := style, greyFill := grey)];
    }
  }

  /** `ws.cell(row, col).value = v`. */
  function Put(sheet: Sheet, row: int, col: int, v: CellValue): Sheet {
    sheet[(row, col) := At(sheet, row, col).(value := Some(v))]
  }

  /** `sheet'` is `sheet` with the six cells of `row` holding what the layout
      puts there for `line`, and nothing else changed or added. */
  ghost predicate RowWritten(sheet: Sheet, row: int, line: Line, sheet': Sheet) {
    && (forall c | 1 <= c <= Columns :: (row, c) in sheet' && sheet'[(row, c)] == CellOf(line, c))
    && (forall p | p in sheet' :: p in sheet || (p.0 == row && 1 <= p.1 <= Columns))
    && (forall p | p in sheet :: p in sheet' && sheet'[p] == sheet[p])
  }

  /** A menu row: header style with the grey fill, then number, title and
      description in columns 1-3. */
  method WriteMenuRow(sheet: Sheet, row: int, n: int, t: string, d: string) returns (sheet': Sheet)
    requires forall c | 1 <= c <= Columns :: (row, c) !in sheet
    ensures RowWritten(sheet, row, MenuLine(n, t, d), sheet')
  {
    sheet' := StyleRow(sheet, row, Header, true);
    sheet' := Put(sheet', row, 1, Number(n));
    sheet' := Put(sheet', row, 2, Text(t));
    sheet' := Put(sheet', row, 3, Text(d));
  }

  /** A submenu row: bold style, then number, title and description in
      columns 2-4. */
  method WriteSubmenuRow(sheet: Sheet, row: int, n: int, t: string, d: string) returns (sheet': Sheet)
    requires forall c | 1 <= c <= Columns :: (row, c) !in sheet
    ensures RowWritten(sheet, row, SubmenuLine(n, t, d), sheet')
  {
    sheet' := StyleRow(sheet, row, BaseBold, false);
    sheet' := Put(sheet', row, 2, Number(n));
    sheet' := Put(sheet', row, 3, Text(t));
    sheet' := Put(sheet', row, 4, Text(d));
  }

  /** A dish row: base style, then number, title, description and price in
      columns 3-6. */
  method WriteDishRow(sheet: Sheet, row: int, n: int, t: string, d: string, p: string) returns (sheet': Sheet)
    requires forall c | 1 <= c <= Columns :: (row, c) !in sheet
    ensures RowWritten(sheet, row, DishLine(n, t, d, p), sheet')
  {
    sheet' := StyleRow(sheet, row, Base, false);
    sheet' := Put(sheet', row, 3, Number(n));
    sheet' := Put(sheet', row, 4, Text(t));
    sheet' := Put(sheet', row, 5, Text(d));
    sheet' := Put(sheet', row, 6, Text(p));
  }

  /** A sheet showing `lines`, with the next row written, shows one line more. */
  lemma ShowsNextRow(sheet: Sheet, lines: seq<Line>, row: int, sheet': Sheet, line: Line)
    requires Shows(sheet, lines) && row == |lines| + 1
    requires RowWritten(sheet, row, line, sheet')
    ensures Shows(sheet', lines + [line])
  {
    var lines' := lines + [line];
    forall r, c | 1 <= r <= |lines'| && 1 <= c <= Columns
      ensures (r, c) in sheet' && sheet'[(r, c)] == CellOf(lines'[r - 1], c)
    {
      if r < row {
        assert lines'[r - 1] == lines[r - 1];
        assert (r, c) in sheet && sheet[(r, c)] == CellOf(lines[r - 1], c);
      } else {
        assert lines'[r - 1] == line;
      }
    }
  }

  /** The `for dish_num` loop: the dish rows of one submenu, from `row` on. */
  method WriteDishes(sheet: Sheet, row: int, ghost lines: seq<Line>, dishesData: seq<DishReport>)
    returns (sheet': Sheet, row': int)
    requires Shows(sheet, lines) && row == |lines| + 1
    ensures Shows(sheet', lines + DishLines(dishesData)) && row' == |lines + DishLines(dishesData)| + 1
  {
    sheet', row' := sheet, row;
    for dishNum := 0 to |dishesData|
      invariant Shows(sheet', lines + DishLines(dishesData[..dishNum]))
      invariant row' == |lines + DishLines(dishesData[..dishNum])| + 1
    {
      var d := dishesData[dishNum];
      var dishLine := DishLine(dishNum + 1, d.title, d.description, d.price);
      ghost var done := lines + DishLines(dishesData[..dishNum]);
      var next := WriteDishRow(sheet', row', dishNum + 1, d.title, d.description, d.price);
      ShowsNextRow(sheet', done, row', next, dishLine);
      sheet' := next;
      row' := row' + 1;
      assert dishesData[..dishNum + 1][..dishNum] == dishesData[..dishNum];
      assert done + [dishLine] == lines + DishLines(dishesData[..dishNum + 1]);
    }
    assert dishesData[..|dishesData|] == dishesData;
  }

  /** The `for submenu_num` loop: each submenu row of one menu followed by
      its dish rows, from `row` on. */
  method WriteSubmenus(sheet: Sheet, row: int, ghost lines: seq<Line>, submenusData: seq<SubmenuReport>)
    returns (sheet': Sheet, row': int)
    requires Shows(sheet, lines) && row == |lines| + 1
    ensures Shows(sheet', lines + SubmenuLines(submenusData)) && row' == |lines + SubmenuLines(submenusData)| + 1
  {
    sheet', row' := sheet, row;
    for submenuNum := 0 to |submenusData|
      invariant Shows(sheet', lines + SubmenuLines(submenusData[..submenuNum]))
      invariant row' == |lines + SubmenuLines(submenusData[..submenuNum])| + 1
    {
      var s := submenusData[submenuNum];
      var submenuLine := SubmenuLine(submenuNum + 1, s.title, s.description);
      ghost var done := lines + SubmenuLines(submenusData[..submenuNum]);
      var next := WriteSubmenuRow(sheet', row', submenuNum + 1, s.title, s.description);
      ShowsNextRow(sheet', done, row', next, submenuLine);
      sheet' := next;
      row' := row' + 1;
      sheet', row' := WriteDishes(sheet', row', done + [submenuLine], s.dishes);
      assert submenusData[..submenuNum + 1][..submenuNum] == submenusData[..submenuNum];
      assert done + [submenuLine] + DishLines(s.dishes) == lines + SubmenuLines(submenusData[..submenuNum + 1]);
    }
    assert submenusData[..|submenusData|] == submenusData;
  }

  /** `generate_menu_xlsx`: the rows of every menu, submenu and dish in
      pre-order, starting at row 1, and the task id; the workbook is saved
      under "<task id>.xlsx". */
  method GenerateMenuXlsx(menusData: seq<MenuReport>, taskId: string) returns (result: string, filename: string, sheet: Sheet)
    ensures result == taskId
    ensures filename == taskId + ".xlsx"
    ensures Shows(sheet, Layout(menusData))
  {
    filename := taskId + ".xlsx";
    sheet := map[];
    var row := 1;
    for menuNum := 0 to |menusData|
      invariant Shows(sheet, Layout(menusData[..menuNum]))
      invariant row == |Layout(menusData[..menuNum])| + 1
    {
      var m := menusData[menuNum];
      var menuLine := MenuLine(menuNum + 1, m.title, m.description);
      ghost var done := Layout(menusData[..menuNum]);
      var next := WriteMenuRow(sheet, row, menuNum + 1, m.title, m.description);
      ShowsNextRow(sheet, done, row, next, menuLine);
      sheet := next;
      row := row + 1;
      sheet, row := WriteSubmenus(sheet, row, done + [menuLine], m.submenus);
      assert menusData[..menuNum + 1][..menuNum] == menusData[..menuNum];
      assert done + [menuLine] + SubmenuLines(m.submenus) == Layout(menusData[..menuNum + 1]);
    }
    assert menusData[..|menusData|] == menusData;
    result := taskId;
  }

  // ------------------------------------------------------- row counts

  function SubmenuCount(ms: seq<MenuReport>): nat {
    if ms == [] then 0 else |ms[|ms| - 1].submenus| + SubmenuCount(ms[..|ms| - 1])
  }

  function DishCount(ss: seq<SubmenuReport>): nat {
    if ss == [] then 0 else |ss[|ss| - 1].dishes| + DishCount(ss[..|ss| - 1])
  }

  function AllDishCount(ms: seq<MenuReport>): nat {
    if ms == [] then 0 else DishCount(ms[|ms| - 1].submenus) + AllDishCount(ms[..|ms| - 1])
  }

  lemma {:induction false} DishLinesLength(ds: seq<DishReport>)
    ensures |DishLines(ds)| == |ds|
  {
    if ds != [] {
      DishLinesLength(ds[..|ds| - 1]);
    }
  }

  lemma {:induction false} SubmenuLinesLength(ss: seq<SubmenuReport>)
    ensures |SubmenuLines(ss)| == |ss| + DishCount(ss)
  {
    if ss != [] {
      SubmenuLinesLength(ss[..|ss| - 1]);
      DishLinesLength(ss[|ss| - 1].dishes);
    }
  }

  /** The sheet has one row per menu, per submenu and per dish: the row
      cursor, which starts at 1, ends one past that count. */
  lemma {:induction false} LayoutLength(ms: seq<MenuReport>)
    ensures |Layout(ms)| == |ms| + SubmenuCount(ms) + AllDishCount(ms)
  {
    if ms != [] {
      LayoutLength(ms[..|ms| - 1]);
      SubmenuLinesLength(ms[|ms| - 1].submenus);
    }
  }

  // ------------------------------------------------------- the menu rows

  /** The menu rows of a layout, in sheet order. */
  function MenuRowsOf(lines: seq<Line>): seq<Line> {
    if lines == [] then []
    else MenuRowsOf(lines[..|lines| - 1]) + (if lines[|lines| - 1].MenuLine? then [lines[|lines| - 1]] else [])
  }

  lemma {:induction false} MenuRowsOfAppend(a: seq<Line>, b: seq<Line>)
    ensures MenuRowsOf(a + b) == MenuRowsOf(a) + MenuRowsOf(b)
  {
    if b != [] {
      var b' := b[..|b| - 1];
      assert (a + b)[..|a + b| - 1] == a + b';
      MenuRowsOfAppend(a, b');
    } else {
      assert a + b == a;
    }
  }

  lemma {:induction false} DishLinesHoldNoMenu(ds: seq<DishReport>)
    ensures MenuRowsOf(DishLines(ds)) == []
  {
    if ds != [] {
      var d := ds[|ds| - 1];
      DishLinesHoldNoMenu(ds[..|ds| - 1]);
      MenuRowsOfAppend(DishLines(ds[..|ds| - 1]), [DishLine(|ds|, d.title, d.description, d.price)]);
    }
  }

  lemma {:induction false} SubmenuLinesHoldNoMenu(ss: seq<SubmenuReport>)
    ensures MenuRowsOf(SubmenuLines(ss)) == []
  {
    if ss != [] {
      var s := ss[|ss| - 1];
      SubmenuLinesHoldNoMenu(ss[..|ss| - 1]);
      DishLinesHoldNoMenu(s.dishes);
      MenuRowsOfAppend(SubmenuLines(ss[..|ss| - 1]), [SubmenuLine(|ss|, s.title, s.description)]);
      MenuRowsOfAppend(SubmenuLines(ss[..|ss| - 1]) + [SubmenuLine(|ss|, s.title, s.description)], DishLines(s.dishes));
    }
  }

  /** The only menu rows of the sheet are one per menu, in the given order,
      numbered from 1 and carrying that menu's title and description. */
  lemma {:induction false} LayoutMenuRows(ms: seq<MenuReport>)
    ensures |MenuRowsOf(Layout(ms))| == |ms|
    ensures forall i | 0 <= i < |ms| ::
      MenuRowsOf(Layout(ms))[i] == MenuLine(i + 1, ms[i].title, ms[i].description)
  {
    if ms != [] {
      var init := ms[..|ms| - 1];
      var m := ms[|ms| - 1];
      LayoutMenuRows(init);
      SubmenuLinesHoldNoMenu(m.submenus);
      MenuRowsOfAppend(Layout(init), [MenuLine(|ms|, m.title, m.description)]);
      MenuRowsOfAppend(Layout(init) + [MenuLine(|ms|, m.title, m.description)], SubmenuLines(m.submenus));
      assert MenuRowsOf(Layout(ms)) == MenuRowsOf(Layout(init)) + [MenuLine(|ms|, m.title, m.description)];
    }
  }
}
