/** The curated column tables (`columns_for`, src/columns.rs): for each kind, headers with
    the extractor that renders the cell. */
module CuratedColumns {
  /** The five extractors that read the clock; `Reads` names one that only looks at the
      object. */
  datatype Extractor = Age | HelmUpdated | EventLastSeen | JobDuration | CronLastSchedule | Reads(name: string)

  datatype Column = Column(header: string, extract: Extractor)

  const POD_COLUMNS := [
    Column("NAME", Reads("name")), Column("READY", Reads("pod_ready")), Column("STATUS", Reads("pod_status")),
    Column("RESTARTS", Reads("pod_restarts")), Column("IP", Reads("pod_ip")), Column("NODE", Reads("pod_node")),
    Column("AGE", Age)
  ]

  const DEPLOYMENT_COLUMNS := [
    Column("NAME", Reads("name")), Column("READY", Reads("deploy_ready")),
    Column("STATUS", Reads("deploy_status")), Column("UP-TO-DATE", Reads("deploy_updated")),
    Column("AVAILABLE", Reads("deploy_available")), Column("AGE", Age)
  ]

  const REPLICASET_COLUMNS := [
    Column("NAME", Reads("name")), Column("DESIRED", Reads("rs_desired")), Column("CURRENT", Reads("rs_current")),
    Column("READY", Reads("rs_ready")), Column("STATUS", Reads("rs_status")), Column("AGE", Age)
  ]

  const STATEFULSET_COLUMNS := [
    Column("NAME", Reads("name")), Column("READY", Reads("sts_ready")), Column("STATUS", Reads("sts_status")),
    Column("AGE", Age)
  ]

  const DAEMONSET_COLUMNS := [
    Column("NAME", Reads("name")), Column("DESIRED", Reads("ds_desired")), Column("CURRENT", Reads("ds_current")),
    Column("READY", Reads("ds_ready")), Column("AVAILABLE", Reads("ds_available")),
    Column("STATUS", Reads("ds_status")), Column("AGE", Age)
  ]

  const SERVICE_COLUMNS := [
    Column("NAME", Reads("name")), Column("TYPE", Reads("service_type")),
    Column("CLUSTER-IP", Reads("service_cluster_ip")), Column("EXTERNAL-IP", Reads("service_external_ip")),
    Column("PORTS", Reads("service_ports")), Column("AGE", Age)
  ]

  const NODE_COLUMNS := [
    Column("NAME", Reads("name")), Column("STATUS", Reads("node_status")), Column("ROLES", Reads("node_roles")),
    Column("TAINTS", Reads("node_taints")), Column("VERSION", Reads("node_version")),
    Column("INTERNAL-IP", Reads("node_internal_ip")), Column("EXTERNAL-IP", Reads("node_external_ip")),
    Column("LABELS", Reads("node_labels")), Column("AGE", Age)
  ]

  const CSR_COLUMNS := [
    Column("NAME", Reads("name")), Column("SIGNER", Reads("csr_signer")),
    Column("REQUESTOR", Reads("csr_requestor")), Column("CONDITION", Reads("csr_condition")), Column("AGE", Age)
  ]

  const NAMESPACE_COLUMNS := [
    Column("NAME", Reads("name")), Column("STATUS", Reads("namespace_status")), Column("AGE", Age)
  ]

  const CONFIGMAP_COLUMNS := [
    Column("NAME", Reads("name")), Column("DATA", Reads("configmap_data")), Column("AGE", Age)
  ]

  const SECRET_COLUMNS := [
    Column("NAME", Reads("name")), Column("TYPE", Reads("secret_type")), Column("DATA", Reads("secret_data")),
    Column("AGE", Age)
  ]

  const JOB_COLUMNS := [
    Column("NAME", Reads("name")), Column("STATUS", Reads("job_status")),
    Column("COMPLETIONS", Reads("job_completions")), Column("DURATION", JobDuration), Column("AGE", Age)
  ]

  const CRONJOB_COLUMNS := [
    Column("NAME", Reads("name")), Column("STATUS", Reads("cronjob_status")),
    Column("SCHEDULE", Reads("cronjob_schedule")), Column("SUSPEND", Reads("cronjob_suspend")),
    Column("ACTIVE", Reads("cronjob_active")), Column("LAST-SCHEDULE", CronLastSchedule), Column("AGE", Age)
  ]

  const EVENT_COLUMNS := [
    Column("NAME", Reads("name")), Column("LAST-SEEN", EventLastSeen), Column("TYPE", Reads("event_type")),
    Column("REASON", Reads("event_reason")), Column("OBJECT", Reads("event_object")),
    Column("MESSAGE", Reads("event_message")), Column("COUNT", Reads("event_count")), Column("AGE", Age)
  ]

  const HPA_COLUMNS := [
    Column("NAME", Reads("name")), Column("REFERENCE", Reads("hpa_reference")),
    Column("TARGETS", Reads("hpa_targets")), Column("MINPODS", Reads("hpa_minpods")),
    Column("MAXPODS", Reads("hpa_maxpods")), Column("REPLICAS", Reads("hpa_replicas")), Column("AGE", Age)
  ]

  const PVC_COLUMNS := [
    Column("NAME", Reads("name")), Column("STATUS", Reads("pvc_status")), Column("VOLUME", Reads("pvc_volume")),
    Column("CAPACITY", Reads("pvc_capacity")), Column("AGE", Age)
  ]

  const PV_COLUMNS := [
    Column("NAME", Reads("name")), Column("CAPACITY", Reads("pv_capacity")), Column("STATUS", Reads("pv_status")),
    Column("CLAIM", Reads("pv_claim")), Column("AGE", Age)
  ]

  const INGRESS_COLUMNS := [
    Column("NAME", Reads("name")), Column("CLASS", Reads("ingress_class")),
    Column("HOSTS", Reads("ingress_hosts")), Column("ADDRESS", Reads("ingress_address")), Column("AGE", Age)
  ]

  const HTTPROUTE_COLUMNS := [
    Column("NAME", Reads("name")), Column("HOSTNAMES", Reads("httproute_hostnames")),
    Column("ROUTES", Reads("httproute_routes")), Column("AGE", Age)
  ]

  const ENDPOINT_COLUMNS := [
    Column("NAME", Reads("name")), Column("ENDPOINTS", Reads("endpoint_count")), Column("AGE", Age)
  ]

  const CRD_COLUMNS := [
    Column("NAME", Reads("name")), Column("GROUP", Reads("crd_group")), Column("KIND", Reads("crd_kind")),
    Column("VERSIONS", Reads("crd_versions")), Column("SCOPE", Reads("crd_scope")), Column("AGE", Age)
  ]

  const FLUX_OBJECT_COLUMNS := [
    Column("NAME", Reads("name")), Column("READY", Reads("flux_ready")),
    Column("SUSPENDED", Reads("flux_suspended")), Column("MESSAGE", Reads("flux_message")),
    Column("REVISION", Reads("flux_revision")), Column("AGE", Age)
  ]

  const FLUX_SOURCE_COLUMNS := [
    Column("NAME", Reads("name")), Column("READY", Reads("flux_ready")),
    Column("SUSPENDED", Reads("flux_suspended")), Column("MESSAGE", Reads("flux_message")),
    Column("REVISION", Reads("flux_source_revision")), Column("URL", Reads("flux_source_url")), Column("AGE", Age)
  ]

  const FLUX_OPERATOR_COLUMNS := [
    Column("NAME", Reads("name")), Column("READY", Reads("flux_ready")),
    Column("SUSPENDED", Reads("flux_operator_suspended")), Column("MESSAGE", Reads("flux_message")),
    Column("REVISION", Reads("flux_revision")), Column("RESOURCES", Reads("flux_inventory")), Column("AGE", Age)
  ]

  const FLUX_INPUT_PROVIDER_COLUMNS := [
    Column("NAME", Reads("name")), Column("READY", Reads("flux_ready")),
    Column("SUSPENDED", Reads("flux_operator_suspended")), Column("MESSAGE", Reads("flux_message")),
    Column("REVISION", Reads("flux_exported_revision")), Column("INPUTS", Reads("flux_exported_inputs")),
    Column("AGE", Age)
  ]

  const DEFAULT_COLUMNS := [
    Column("NAME", Reads("name")), Column("AGE", Age)
  ]

  const WORKLOAD_COLUMNS := [
    Column("NAME", Reads("name")), Column("KIND", Reads("workload_kind")),
    Column("READY", Reads("workload_ready")), Column("STATUS", Reads("workload_status")), Column("AGE", Age)
  ]

  const NS_RESOURCE_COLUMNS := [
    Column("KIND", Reads("ns_resource_kind")), Column("GROUP", Reads("ns_resource_group")),
    Column("COUNT", Reads("ns_resource_count"))
  ]

  const HELM_COLUMNS := [
    Column("NAME", Reads("helm_name")), Column("REVISION", Reads("helm_revision")),
    Column("STATUS", Reads("helm_status")), Column("CHART", Reads("helm_chart")),
    Column("APP VERSION", Reads("helm_app_version")), Column("UPDATED", HelmUpdated)
  ]

  const HELM_HISTORY_COLUMNS := [
    Column("REVISION", Reads("helm_revision")), Column("STATUS", Reads("helm_status")),
    Column("CHART", Reads("helm_chart")), Column("APP VERSION", Reads("helm_app_version")),
    Column("DESCRIPTION", Reads("helm_description")), Column("UPDATED", HelmUpdated)
  ]

  const ROLLOUT_HISTORY_COLUMNS := [
    Column("REVISION", Reads("rollout_revision")), Column("STATUS", Reads("rollout_status")),
    Column("IMAGES", Reads("rollout_images")), Column("CHANGE-CAUSE", Reads("rollout_change_cause")),
    Column("AGE", Age)
  ]

  const ARGOCD_APP_COLUMNS := [
    Column("NAME", Reads("name")), Column("SYNC", Reads("argocd_sync")), Column("HEALTH", Reads("argocd_health")),
    Column("REVISION", Reads("argocd_revision")), Column("AUTO-SYNC", Reads("argocd_auto_sync")), Column("AGE", Age)
  ]

  const ARGOCD_APPSET_COLUMNS := [
    Column("NAME", Reads("name")), Column("STATUS", Reads("argocd_appset_status")),
    Column("GENERATORS", Reads("argocd_appset_generators")), Column("APPS", Reads("argocd_appset_apps")),
    Column("AGE", Age)
  ]

  function ColumnsFor(group: string, plural: string): seq<Column> {
    if group == "" && plural == "pods" then POD_COLUMNS
    else if group in {"apps", "extensions"} && plural == "deployments" then DEPLOYMENT_COLUMNS
    else if group in {"apps", "extensions"} && plural == "replicasets" then REPLICASET_COLUMNS
    else if group == "apps" && plural == "statefulsets" then STATEFULSET_COLUMNS
    else if group in {"apps", "extensions"} && plural == "daemonsets" then DAEMONSET_COLUMNS
    else if group == "" && plural == "services" then SERVICE_COLUMNS
    else if group == "" && plural == "nodes" then NODE_COLUMNS
    else if group == "" && plural == "namespaces" then NAMESPACE_COLUMNS
    else if group == "certificates.k8s.io" && plural == "certificatesigningrequests" then CSR_COLUMNS
    else if group == "" && plural == "configmaps" then CONFIGMAP_COLUMNS
    else if group == "" && plural == "secrets" then SECRET_COLUMNS
    else if group == "batch" && plural == "jobs" then JOB_COLUMNS
    else if group == "batch" && plural == "cronjobs" then CRONJOB_COLUMNS
    else if group in {"", "events.k8s.io"} && plural == "events" then EVENT_COLUMNS
    else if group == "autoscaling" && plural == "horizontalpodautoscalers" then HPA_COLUMNS
    else if group == "" && plural == "persistentvolumeclaims" then PVC_COLUMNS
    else if group == "" && plural == "persistentvolumes" then PV_COLUMNS
    else if group in {"networking.k8s.io", "extensions"} && plural == "ingresses" then INGRESS_COLUMNS
    else if group == "gateway.networking.k8s.io" && plural == "httproutes" then HTTPROUTE_COLUMNS
    else if group == "" && plural == "endpoints" then ENDPOINT_COLUMNS
    else if group == "apiextensions.k8s.io" && plural == "customresourcedefinitions" then CRD_COLUMNS
    else if group == "kustomize.toolkit.fluxcd.io" && plural == "kustomizations" then FLUX_OBJECT_COLUMNS
    else if group == "helm.toolkit.fluxcd.io" && plural == "helmreleases" then FLUX_OBJECT_COLUMNS
    else if group == "source.toolkit.fluxcd.io"
            && plural in {"gitrepositories", "helmrepositories", "ocirepositories", "buckets"} then
      FLUX_SOURCE_COLUMNS
    else if group == "fluxcd.controlplane.io"
            && plural in {"resourcesets", "fluxinstances"} then
      FLUX_OPERATOR_COLUMNS
    else if group == "fluxcd.controlplane.io"
            && plural == "resourcesetinputproviders" then
      FLUX_INPUT_PROVIDER_COLUMNS
    else if group == "argoproj.io" && plural == "applications" then ARGOCD_APP_COLUMNS
    else if group == "argoproj.io" && plural == "applicationsets" then ARGOCD_APPSET_COLUMNS
    else if group == "" && plural == "helm" then HELM_COLUMNS
    else if group == "" && plural == "workloads" then WORKLOAD_COLUMNS
    else if group == "" && plural == "ns-resources" then NS_RESOURCE_COLUMNS
    else if group == "" && plural == "helmhistory" then HELM_HISTORY_COLUMNS
    else if group == "apps" && plural == "rollouthistory" then ROLLOUT_HISTORY_COLUMNS
    else DEFAULT_COLUMNS
  }
}
