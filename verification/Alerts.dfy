/** The canonical alert shared by ingestion and incident handling (pkg/domain/alert.go). */
module Alerts {
  datatype AlertStatus = Firing | Resolved

  datatype Alert = Alert(fingerprint: string, source: string, tenantId: string, labels: map<string, string>, status: AlertStatus)
}
