/** The pump states, command kinds and logic types that all parts of the system share. */
module States {
  datatype StateType =
    | BUSY | NOT_SERVED | HANGED_FREE | REMOVED_WAITING | REMOVED_FREE | WAITING_APPROPRIATE_PISTOL
    | REMOVED_MANUAL_DOSING | AUTHORIZE_REGISTERED | TEST_INDICATORS | CUTOFF_FUEL_ACTIVE | FUEL_SUPPLY
    | SLOWING_FUEL_ACTIVE | FUEL_ENGINE_ACTIVE | SUPPLY_STOPPED_SC | SUPPLY_STOPPED | SUPPLY_STOPPED_NO_PULSE
    | SUPPLY_STOPPED_NEST | SUPPLY_STOPPED_NO_POWER | SUPPLY_DONE | SUPPLY_DONE_REPORT_OPEN
    | WAITING_CONFIRM_EERROR | SUPPLY_DONE_REPORT_CLOSE | LOCK_STATUS | TOTAL_RESPONSE | TRANSACTION_CLOSED
    | TRANSACTION_UNCLOSED | ERROR

  datatype CmdType =
    | STATUS_REQUEST | WRITE_VOLUME | STOP_COMMAND | READ_PRICE | WRITE_PRICE | GET_TOTAL | PAUSE_COMMAND
    | WRITE_MONEY | CLOSE_REPORT | CHANGE_LOG | CHANGE_SCENARIOS | GRADES_CONFIG | PUMP_CONFIG | GET_BATTERY
    | GET_SD | CONFIRMATION

  datatype LogicType = IDLE | SLEEP | CONTROL
}
