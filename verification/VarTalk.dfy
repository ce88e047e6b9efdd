// The conversation with GDB about one variable object, from its fields, the window and the answers.

module VarTalk {
  import opened Prelude

  datatype Cmd = INIT | CREATE | DELETE | CHILDREN | UPDATE | PRINT | EVALUATE | FORMAT

  datatype Scope = InScope | OutOfScope | NotChanged

  /** What GDB answered: a name when an object was created, its scope after an update, and errors. */
  datatype Reply = Reply(name: Option<string>, children: bool, scope: Scope, error: bool)

  /** The fields of an object that the conversation depends on. */
  datatype Item = Item(name: Option<string>, children: bool, format: Option<string>)

  /**
   * What a pass meets: the variables buffer, and the names found in it, after so many commands, and the
   * answer to each command.
   */
  datatype World = World(varBuf: nat -> bool, found: nat -> string -> bool, reply: nat -> Reply)

  function AfterPrint(w: World, k: nat): seq<Cmd> {
    if w.reply(k).error then [EVALUATE] else []
  }

  function Printing(w: World, k: nat): seq<Cmd> {
    [PRINT] + AfterPrint(w, k)
  }

  function AfterUpdate(w: World, k: nat): seq<Cmd> {
    if w.reply(k).scope == InScope then Printing(w, k + 1) else []
  }

  function Updating(w: World, k: nat): seq<Cmd> {
    [UPDATE] + AfterUpdate(w, k)
  }

  function Formatting(format: Option<string>, w: World, k: nat): seq<Cmd> {
    if format.Some? && |format.value| == 2 then [FORMAT] + Printing(w, k + 1) else []
  }

  function AfterCreate(format: Option<string>, w: World, k: nat): seq<Cmd> {
    if w.reply(k).name == None then []
    else if format == None then Printing(w, k + 1)
    else Formatting(format, w, k + 1)
  }

  /** The commands sent for an object whose turn comes after `k` commands. */
  function Talk(o: Item, w: World, k: nat): seq<Cmd> {
    match o.name
    case None => if w.varBuf(k) then [CREATE] + AfterCreate(o.format, w, k) else []
    case Some(name) =>
      if !w.varBuf(k) || !w.found(k)(name) then [DELETE]
      else if o.children then [CHILDREN] + Updating(w, k + 1)
      else Updating(w, k)
  }

  /** Whether the object leaves the list. */
  predicate Goes(o: Item, w: World, k: nat) {
    match o.name
    case None => !w.varBuf(k) || w.reply(k).name == None
    case Some(name) => !w.varBuf(k) || !w.found(k)(name)
  }

  /** The object at the end of its turn, if it does not leave. */
  function Final(o: Item, w: World, k: nat): Item {
    if o.name == None then Item(w.reply(k).name, w.reply(k).children, o.format) else o
  }

  /** What is still to be sent at stage `next`, `k` commands having been answered. */
  function Rest(next: Cmd, o: Item, w: World, k: nat): seq<Cmd> {
    match next
    case INIT => Talk(o, w, k)
    case FORMAT => Formatting(o.format, w, k)
    case UPDATE => Updating(w, k)
    case PRINT => Printing(w, k)
    case EVALUATE => [EVALUATE]
    case _ => []
  }

  /** What follows command number `k`, not answered yet. */
  function Left(cmd: Cmd, o: Item, w: World, k: nat): seq<Cmd> {
    match cmd
    case CREATE => AfterCreate(o.format, w, k)
    case CHILDREN => Updating(w, k + 1)
    case FORMAT => Printing(w, k + 1)
    case UPDATE => AfterUpdate(w, k)
    case PRINT => AfterPrint(w, k)
    case _ => []
  }

  /** What the object calls for first. */
  function FirstCmd(o: Item, w: World, k: nat): Cmd {
    if o.name == None then CREATE else if Goes(o, w, k) then DELETE else if o.children then CHILDREN else UPDATE
  }

  lemma {:induction false} TalkStarts(o: Item, w: World, k: nat)
    ensures if o.name == None && !w.varBuf(k) then Talk(o, w, k) == [] && Goes(o, w, k)
            else Talk(o, w, k) == [FirstCmd(o, w, k)] + Left(FirstCmd(o, w, k), o, w, k)
    ensures o.name != None ==> Final(o, w, k) == o
  {
    AppendNone([DELETE]);
    hide AfterCreate, AfterUpdate;
  }

  lemma {:induction false} RestStarts(next: Cmd, o: Item, w: World, k: nat)
    requires next == FORMAT || next == UPDATE || next == PRINT || next == EVALUATE
    ensures if next == FORMAT && (o.format == None || |o.format.value| != 2) then Rest(next, o, w, k) == []
            else Rest(next, o, w, k) == [next] + Left(next, o, w, k)
  {
    AppendNone([EVALUATE]);
    hide AfterPrint, AfterUpdate;
  }

  // ---------- What the conversation means ----------

  predicate Kept(o: Item, w: World, k: nat)
    requires o.name.Some?
  {
    w.varBuf(k) && w.found(k)(o.name.value)
  }

  /**
   * A created object is deleted, with no other command, exactly when there is no buffer or its name is not
   * found there. Otherwise its children are listed first if it has any, it is updated, its value is printed
   * exactly when it is in scope, and evaluated exactly when printing failed.
   */
  lemma {:induction false} TalkOfCreated(o: Item, w: World, k: nat)
    requires o.name.Some?
    ensures var t := Talk(o, w, k);
            var u := if o.children then k + 1 else k;
            && (Goes(o, w, k) <==> !Kept(o, w, k)) && (t == [DELETE] <==> !Kept(o, w, k))
            && (DELETE in t <==> !Kept(o, w, k))
            && (CHILDREN in t <==> Kept(o, w, k) && o.children) && (CHILDREN in t ==> t[0] == CHILDREN)
            && (UPDATE in t <==> Kept(o, w, k))
            && (PRINT in t <==> Kept(o, w, k) && w.reply(u).scope == InScope)
            && (EVALUATE in t <==> PRINT in t && w.reply(u + 1).error)
            && CREATE !in t && FORMAT !in t && INIT !in t
            && Final(o, w, k) == o
  {
    if Kept(o, w, k) {
      UpdatingIs(w, if o.children then k + 1 else k);
      hide Updating;
    }
  }

  lemma {:induction false} UpdatingIs(w: World, u: nat)
    ensures Updating(w, u) == if w.reply(u).scope != InScope then [UPDATE]
                              else if !w.reply(u + 1).error then [UPDATE, PRINT]
                              else [UPDATE, PRINT, EVALUATE]
  {
  }

  /**
   * An object not created yet is created exactly when there is a buffer, and stays exactly when GDB then
   * names it. Only then is its format set, when it has two characters; its value is printed when it has
   * such a format or none, and evaluated exactly when printing failed.
   */
  lemma {:induction false} TalkOfNew(o: Item, w: World, k: nat)
    requires o.name == None
    ensures var t := Talk(o, w, k);
            var two := o.format.Some? && |o.format.value| == 2;
            && (CREATE in t <==> w.varBuf(k)) && (CREATE in t <==> t != []) && (CREATE in t ==> t[0] == CREATE)
            && (!Goes(o, w, k) <==> CREATE in t && w.reply(k).name.Some?)
            && (FORMAT in t <==> !Goes(o, w, k) && two) && (FORMAT in t ==> t[1] == FORMAT)
            && (PRINT in t <==> !Goes(o, w, k) && (o.format == None || two))
            && (EVALUATE in t <==> PRINT in t && w.reply(if two then k + 2 else k + 1).error)
            && DELETE !in t && CHILDREN !in t && UPDATE !in t && INIT !in t
            && (!Goes(o, w, k) ==> Final(o, w, k).name == w.reply(k).name
                                   && Final(o, w, k).children == w.reply(k).children && Final(o, w, k).format == o.format)
  {
  }

  /** No command comes twice, and there are at most four. */
  lemma {:induction false} TalkIsShort(o: Item, w: World, k: nat)
    ensures |Talk(o, w, k)| <= 4
    ensures forall i, j :: 0 <= i < j < |Talk(o, w, k)| ==> Talk(o, w, k)[i] != Talk(o, w, k)[j]
  {
  }
}
