/** A heap row and the log that receives its traps. */
module Row {
  import opened Items
  import opened Oids
  import opened Rules

  /** The traps handed to the SNMP library, oldest first. */
  class TrapLog {
    var sent: seq<Trap>

    constructor ()
      ensures sent == []
    {
      sent := [];
    }

    method Send(trap: Trap)
      modifies this
      ensures sent == old(sent) + [trap]
    {
      sent := sent + [trap];
    }
  }

  /** What `get_snmp_reply` puts in the answer. */
  datatype Reply = Octets(s: string) | Integer(i: int) | NoSuchObject

  /** `Sensor` and `InventoryItem`; `kind` selects the override that a virtual call reaches. */
  class Row {
    const kind: Kind
    const folder: string
    const name: string
    /** `_notifyOid`; inventory rows share one constant. */
    const notifyOid: Oid := if kind.Sensor? then SensorNotifyOid(folder) else INVENTORY_NOTIFY
    /** `_stateOid`, or `_presentOid` and `_functionalOid`. */
    const cells: seq<Oid> := Cells(kind, folder, name)
    /** Ten to the power `_power`. */
    const scale: real := SensorScale(folder)
    var data: Data

    ghost predicate Valid()
      reads this
    {
      |data| == FIELD_COUNT
    }

    constructor (kind: Kind, folder: string, name: string)
      ensures Valid()
      ensures this.kind == kind && this.folder == folder && this.name == name
      ensures data == DefaultData(kind)
    {
      this.kind, this.folder, this.name := kind, folder, name;
      data := DefaultData(kind);
    }

    /** Overwrites one field if the map has the property at the field's own type. */
    method SetField(index: nat, fields: Fields, property: string)
      requires Valid() && index < |data|
      modifies this
      ensures Valid()
      ensures data == old(data)[index := Pick(Column(property, SchemaOf(kind)[index].ty), fields, old(data)[index])]
    {
      if property in fields && HoldsType(fields[property], SchemaOf(kind)[index].ty) {
        data := data[index := fields[property]];
      }
    }

    method OnPropertiesChanged(fields: Fields, log: TrapLog)
      requires Valid()
      modifies this, log
      ensures Valid()
      ensures data == Merge(SchemaOf(kind), old(data), fields)
      ensures log.sent == old(log.sent) + ChangeTraps(kind, folder, name, old(data), data)
    {
      SetFields(fields, log);
    }

    method SetFields(fields: Fields, log: TrapLog)
      requires Valid()
      modifies this, log
      ensures Valid()
      ensures data == Merge(SchemaOf(kind), old(data), fields)
      ensures log.sent == old(log.sent) + ChangeTraps(kind, folder, name, old(data), data)
    {
      if kind.Sensor? {
        SetSensorFields(fields, log);
      } else {
        SetInventoryFields(fields, log);
      }
    }

    method StoreSensorFields(fields: Fields)
      requires Valid() && kind.Sensor?
      modifies this
      ensures data == Merge(SENSOR_SCHEMA, old(data), fields)
    {
      SetField(0, fields, "Value");
      SetField(1, fields, "WarningLow");
      SetField(2, fields, "WarningAlarmLow");
      SetField(3, fields, "WarningHigh");
      SetField(4, fields, "WarningAlarmHigh");
      SetField(5, fields, "CriticalLow");
      SetField(6, fields, "CriticalAlarmLow");
      SetField(7, fields, "CriticalHigh");
      SetField(8, fields, "CriticalAlarmHigh");
    }

    method SetSensorFields(fields: Fields, log: TrapLog)
      requires Valid() && kind.Sensor?
      modifies this, log
      ensures Valid()
      ensures data == Merge(SENSOR_SCHEMA, old(data), fields)
      ensures log.sent == old(log.sent) + ChangeTraps(kind, folder, name, old(data), data)
    {
      var prevState := StateOf(data);

      StoreSensorFields(fields);

      var lastState := StateOf(data);
      if prevState != lastState {
        SendNotify(lastState, log);
      }
    }

    method StoreInventoryFields(fields: Fields)
      requires Valid() && kind.Inventory?
      modifies this
      ensures data == Merge(INVENTORY_SCHEMA, old(data), fields)
    {
      SetField(0, fields, "PrettyName");
      SetField(1, fields, "Manufacturer");
      SetField(2, fields, "BuildDate");
      SetField(3, fields, "Model");
      SetField(4, fields, "PartNumber");
      SetField(5, fields, "SerialNumber");
      SetField(6, fields, "Version");
      SetField(7, fields, "Present");
      SetField(8, fields, "Functional");
    }

    method SetInventoryFields(fields: Fields, log: TrapLog)
      requires Valid() && kind.Inventory?
      modifies this, log
      ensures Valid()
      ensures data == Merge(INVENTORY_SCHEMA, old(data), fields)
      ensures log.sent == old(log.sent) + ChangeTraps(kind, folder, name, old(data), data)
    {
      var isPresent := Flag(data, FIELD_PRESENT);
      var isFunctional := Flag(data, FIELD_FUNCTIONAL);

      StoreInventoryFields(fields);

      if isPresent != Flag(data, FIELD_PRESENT) || isFunctional != Flag(data, FIELD_FUNCTIONAL) {
        SendPresence(Flag(data, FIELD_PRESENT), Flag(data, FIELD_FUNCTIONAL), log);
      }
    }

    method OnCreate(log: TrapLog)
      requires Valid()
      modifies log
      ensures log.sent == old(log.sent) + CreateTraps(kind, folder, name)
    {
      if kind.Sensor? {
        SendNotify(E_NORMAL, log);
      }
    }

    method OnDestroy(log: TrapLog)
      requires Valid()
      modifies log
      ensures log.sent == old(log.sent) + DestroyTraps(kind, folder, name, data)
    {
      if kind.Sensor? {
        SendNotify(E_DISABLED, log);
      } else if Flag(data, FIELD_PRESENT) || Flag(data, FIELD_FUNCTIONAL) {
        SendPresence(false, false, log);
      }
    }

    method SendNotify(state: int, log: TrapLog)
      requires Valid() && kind.Sensor?
      modifies log
      ensures log.sent == old(log.sent) + SensorTraps(folder, name, state)
    {
      if notifyOid != [] && cells[0] != [] {
        log.Send(Trap(notifyOid, [Binding(cells[0], state)]));
      }
    }

    method SendPresence(present: bool, functional: bool, log: TrapLog)
      requires Valid() && kind.Inventory?
      modifies log
      ensures log.sent == old(log.sent) + [InventoryTrap(name, present, functional)]
    {
      log.Send(Trap(notifyOid, [Binding(cells[0], TruthValue(present)), Binding(cells[1], TruthValue(functional))]));
    }

    /** Scale and round a number. */
    function GetValue(index: nat): int
      requires index < |data| && data[index].Double?
      reads this
    {
      Scaled(data[index].d, scale)
    }

    /** The columns of a GET; a sensor's columns 2 to 6 are its value and its four thresholds. */
    method GetSnmpReply(column: nat) returns (reply: Reply)
      requires Valid() && Typed(SchemaOf(kind), data)
      ensures column == 1 ==> reply == Octets(name)
      ensures kind.Sensor? && column == 7 ==> reply == Integer(Shown(kind, data)[0])
      ensures kind.Inventory? && column == COLUMN_PRESENT ==> reply == Integer(Shown(kind, data)[0])
      ensures kind.Inventory? && column == COLUMN_FUNCTIONAL ==> reply == Integer(Shown(kind, data)[1])
      ensures kind.Sensor? && 2 <= column <= 6 ==>
                reply == Integer(Scaled(data[[0, 1, 3, 5, 7][column - 2]].d, SensorScale(folder)))
      ensures kind.Inventory? && 2 <= column <= 8 ==> reply == Octets(data[column - 2].s)
      ensures reply == NoSuchObject <==> column < 1 || column > (if kind.Sensor? then 7 else 10)
    {
      hide Scaled, SensorScale;
      if column == 1 {
        return Octets(name);
      }
      if kind.Sensor? {
        match column {
          case 2 => return Integer(GetValue(0));
          case 3 => return Integer(GetValue(1));
          case 4 => return Integer(GetValue(3));
          case 5 => return Integer(GetValue(5));
          case 6 => return Integer(GetValue(7));
          case 7 => return Integer(StateOf(data));
          case _ => return NoSuchObject;
        }
      } else if 2 <= column <= 8 {
        return Octets(data[column - 2].s);
      } else if column == COLUMN_PRESENT {
        return Integer(TruthValue(Flag(data, FIELD_PRESENT)));
      } else if column == COLUMN_FUNCTIONAL {
        return Integer(TruthValue(Flag(data, FIELD_FUNCTIONAL)));
      }
      return NoSuchObject;
    }
  }
}
